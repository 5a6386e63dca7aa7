/**
 * The listener manager, with both of its registries updated in place. Each method is proved
 * against the functions that VectorRegistry and IndicationRegistry reason about.
 *
 * The liveness that the successive locks see is a parameter. A listener that a method has
 * locked at entry is alive until it returns.
 */
module ListenerManager {
  import opened WeakPointers
  import opened ListenerSet
  import V = VectorRegistry
  import I = IndicationRegistry

  class ListenerManager {
    var listeners: seq<Obj>
    var registrationMap: I.Registrations

    constructor ()
      ensures listeners == [] && registrationMap == map[]
    {
      listeners := [];
      registrationMap := map[];
    }

    /** Stores a live listener once; `clock[i]` is the instant at which entry i is locked. */
    method RegisterListener(listener: Obj, atEntry: Snapshot, clock: seq<Snapshot>) returns (status: Status)
      requires |clock| == |listeners|
      requires forall i | 0 <= i < |clock| :: Placed(clock[i]) && (listener in atEntry ==> listener in clock[i])
      modifies this
      ensures status == V.RegisterStatus(old(listeners), atEntry, listener)
      ensures listeners == V.Registered(old(listeners), atEntry, listener)
      ensures registrationMap == old(registrationMap)
    {
      if listener !in atEntry {
        return INVALIDPARAM;
      }
      var itr := 0;
      while itr < |listeners| && !(listeners[itr] in clock[itr] && listeners[itr].addr == listener.addr)
        invariant itr <= |listeners|
        invariant listener !in listeners[..itr]
      {
        itr := itr + 1;
      }
      if itr != |listeners| {
        assert listeners[itr] == listener;
        return ALREADY;
      }
      listeners := listeners + [listener];
      return SUCCESS;
    }

    /**
     * Erases the listener, and every entry found expired on the way. Entry i is locked at
     * `clock[i]`; while it is held the given listener is locked at `again[i]`.
     */
    method DeRegisterListener(listener: Obj, clock: seq<Snapshot>, again: seq<Snapshot>) returns (status: Status)
      requires V.PassOf(listeners, clock, again)
      modifies this
      ensures status == V.DeregisterStatus(old(listeners), clock, listener)
      ensures listeners == V.Kept(old(listeners), clock, {listener})
      ensures registrationMap == old(registrationMap)
    {
      ghost var entries := listeners;
      var listenerExisted := false;
      var it, pass := 0, 0;
      while it < |listeners|
        invariant it <= |listeners| && pass <= |entries| && |listeners| - it == |entries| - pass
        invariant listeners[..it] == V.Kept(entries[..pass], clock[..pass], {listener})
        invariant listeners[it..] == entries[pass..]
        invariant registrationMap == old(registrationMap)
        invariant listenerExisted <==> exists i | 0 <= i < pass :: entries[i] == listener && listener in clock[i]
        decreases |entries| - pass
      {
        KeptStep(entries, clock, {listener}, pass);
        assert listeners[it] == listeners[it..][0] == entries[pass];
        assert listeners[it + 1..] == listeners[it..][1..] == entries[pass + 1..];
        if listeners[it] !in clock[pass] {
          listeners := listeners[..it] + listeners[it + 1..];
        } else if listener in again[pass] && listeners[it].addr == listener.addr {
          listeners := listeners[..it] + listeners[it + 1..];
          listenerExisted := true;
        } else {
          it := it + 1;
        }
        pass := pass + 1;
      }
      assert entries[..pass] == entries && clock[..pass] == clock;
      status := if listenerExisted then SUCCESS else NOSUCH;
    }

    /** Appends the live listeners to the caller's vector, and erases the entries found expired. */
    method GetAvailableListeners(vec: seq<Obj>, clock: seq<Snapshot>) returns (availableListeners: seq<Obj>)
      requires |clock| == |listeners|
      modifies this
      ensures availableListeners == vec + V.Kept(old(listeners), clock, {})
      ensures listeners == V.Kept(old(listeners), clock, {})
      ensures registrationMap == old(registrationMap)
    {
      ghost var entries := listeners;
      availableListeners := vec;
      var it, pass := 0, 0;
      while it < |listeners|
        invariant it <= |listeners| && pass <= |entries| && |listeners| - it == |entries| - pass
        invariant listeners[..it] == V.Kept(entries[..pass], clock[..pass], {})
        invariant listeners[it..] == entries[pass..]
        invariant availableListeners == vec + listeners[..it]
        invariant registrationMap == old(registrationMap)
        decreases |entries| - pass
      {
        KeptStep(entries, clock, {}, pass);
        assert listeners[it] == listeners[it..][0] == entries[pass];
        assert listeners[it + 1..] == listeners[it..][1..] == entries[pass + 1..];
        if listeners[it] in clock[pass] {
          availableListeners := availableListeners + [listeners[it]];
          it := it + 1;
        } else {
          listeners := listeners[..it] + listeners[it + 1..];
        }
        pass := pass + 1;
      }
      assert entries[..pass] == entries && clock[..pass] == clock;
    }

    /** Inserts a live listener into the set of every selected indication. */
    method RegisterListenerFor(listener: Obj, indications: seq<bool>, atEntry: Snapshot, access: I.Access)
      returns (status: Status)
      requires I.Shaped(registrationMap, indications, access)
      modifies this
      ensures status == if listener in atEntry then SUCCESS else INVALIDPARAM
      ensures registrationMap ==
        if listener in atEntry then I.AfterRegister(old(registrationMap), listener, indications, access)
        else old(registrationMap)
      ensures listeners == old(listeners)
    {
      if listener !in atEntry {
        return INVALIDPARAM;
      }
      ghost var before := registrationMap;
      assert I.AfterRegister(before, listener, [], access) == before;
      for itr := 0 to |indications|
        invariant registrationMap == I.AfterRegister(before, listener, indications[..itr], access)
        invariant listeners == old(listeners)
      {
        RegisterStep(before, listener, indications, access, itr);
        if indications[itr] {
          registrationMap := registrationMap[itr := Inserted(access.shapes(itr), listener, access.clocks(itr))];
        }
      }
      assert indications[..|indications|] == indications;
      status := SUCCESS;
    }

    /** Erases a live listener from the set of every selected indication. */
    method DeRegisterListenerFor(listener: Obj, indications: seq<bool>, atEntry: Snapshot, access: I.Access)
      returns (status: Status)
      requires I.Shaped(registrationMap, indications, access)
      modifies this
      ensures status ==
        if listener in atEntry then I.DeregisterStatus(old(registrationMap), listener, indications, access)
        else INVALIDPARAM
      ensures registrationMap ==
        if listener in atEntry then I.AfterDeregister(old(registrationMap), listener, indications, access)
        else old(registrationMap)
      ensures listeners == old(listeners)
    {
      if listener !in atEntry {
        return INVALIDPARAM;
      }
      ghost var before := registrationMap;
      var listenerExisted := false;
      assert I.AfterDeregister(before, listener, [], access) == before;
      for itr := 0 to |indications|
        invariant registrationMap == I.AfterDeregister(before, listener, indications[..itr], access)
        invariant listeners == old(listeners)
        invariant listenerExisted <==>
          I.DeregisterStatus(before, listener, indications[..itr], access) == SUCCESS
      {
        DeregisterStep(before, listener, indications, access, itr);
        if indications[itr] {
          if itr in registrationMap {
            if ErasedCount(access.shapes(itr), listener, access.clocks(itr)) != 0 {
              listenerExisted := true;
            }
            registrationMap := registrationMap[itr := Erased(access.shapes(itr), listener, access.clocks(itr))];
          }
        }
      }
      assert indications[..|indications|] == indications;
      status := if listenerExisted then SUCCESS else NOSUCH;
    }

    /** Replaces the caller's vector by the listeners stored for an indication, if that has an entry. */
    method GetAvailableListenersFor(indication: nat, vec: seq<Obj>) returns (r: seq<Obj>)
      ensures r == I.Listing(registrationMap, indication, vec)
    {
      r := vec;
      if indication in registrationMap {
        r := registrationMap[indication];
      }
    }
  }

  /** One more pass of an erasing loop. */
  lemma KeptStep(entries: seq<Obj>, clock: seq<Snapshot>, drop: set<Obj>, pass: nat)
    requires |clock| == |entries| && pass < |entries|
    ensures V.Kept(entries[..pass + 1], clock[..pass + 1], drop) == V.Kept(entries[..pass], clock[..pass], drop)
      + if entries[pass] in clock[pass] && entries[pass] !in drop then [entries[pass]] else []
  {
    assert entries[..pass + 1][..pass] == entries[..pass];
    assert clock[..pass + 1][..pass] == clock[..pass];
  }

  /** One more bit of a registering loop. */
  lemma RegisterStep(m: I.Registrations, w: Obj, mask: seq<bool>, access: I.Access, i: nat)
    requires i < |mask|
    ensures
      var sofar := I.AfterRegister(m, w, mask[..i], access);
      I.AfterRegister(m, w, mask[..i + 1], access) ==
        if mask[i] then sofar[i := Inserted(access.shapes(i), w, access.clocks(i))] else sofar
  {
    var sofar := I.AfterRegister(m, w, mask[..i], access);
    var next := I.AfterRegister(m, w, mask[..i + 1], access);
    var step := if mask[i] then sofar[i := Inserted(access.shapes(i), w, access.clocks(i))] else sofar;
    forall bit: nat
      ensures bit in next <==> bit in step
      ensures bit in next ==> next[bit] == step[bit]
    {
      PrefixSelectsAt(mask, i, bit);
      AfterRegisterAt(m, w, mask[..i], access, bit);
      AfterRegisterAt(m, w, mask[..i + 1], access, bit);
    }
    assert next == step;
  }

  lemma PrefixSelectsAt(mask: seq<bool>, i: nat, bit: nat)
    requires i < |mask|
    ensures I.Selected(mask[..i + 1], bit) <==> I.Selected(mask[..i], bit) || (bit == i && mask[i])
  {
  }

  lemma AfterRegisterAt(m: I.Registrations, w: Obj, mask: seq<bool>, access: I.Access, bit: nat)
    ensures bit in I.AfterRegister(m, w, mask, access) <==> bit in m || I.Selected(mask, bit)
    ensures I.SetFor(I.AfterRegister(m, w, mask, access), bit) ==
      if I.Selected(mask, bit) then Inserted(access.shapes(bit), w, access.clocks(bit)) else I.SetFor(m, bit)
  {
  }

  /** One more bit of a deregistering loop. */
  lemma DeregisterStep(m: I.Registrations, w: Obj, mask: seq<bool>, access: I.Access, i: nat)
    requires i < |mask|
    ensures
      var sofar := I.AfterDeregister(m, w, mask[..i], access);
      && sofar.Keys == m.Keys
      && I.AfterDeregister(m, w, mask[..i + 1], access) ==
         if mask[i] && i in m then sofar[i := Erased(access.shapes(i), w, access.clocks(i))] else sofar
    ensures I.DeregisterStatus(m, w, mask[..i + 1], access) == SUCCESS <==>
      || I.DeregisterStatus(m, w, mask[..i], access) == SUCCESS
      || (mask[i] && i in m && ErasedCount(access.shapes(i), w, access.clocks(i)) != 0)
  {
    forall bit: nat
      ensures I.Selected(mask[..i + 1], bit) <==> I.Selected(mask[..i], bit) || (bit == i && mask[i])
    {
      PrefixSelectsAt(mask, i, bit);
    }
    var sofar := I.AfterDeregister(m, w, mask[..i], access);
    var next := I.AfterDeregister(m, w, mask[..i + 1], access);
    forall bit | bit in m && bit != i ensures next[bit] == sofar[bit] {
      assert I.Selected(mask[..i + 1], bit) <==> I.Selected(mask[..i], bit);
    }
    if mask[i] && i in m && ErasedCount(access.shapes(i), w, access.clocks(i)) != 0 {
      assert I.Selected(mask[..i + 1], i);
    }
  }
}
