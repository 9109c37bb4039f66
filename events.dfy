/** The EventEmitter mixin of golem.util.js: a registry from event name to an ordered
    list of (callback, context) pairs.  Callbacks and contexts are opaque ids; `emit`
    returns the ordered trace of the calls it would make instead of making them. */
module Events {
  import opened Wrappers
  import opened Text

  /** One registration: the source stores it as two consecutive array entries. */
  datatype Listener = Listener(callback: nat, context: Option<nat>)

  /** One call made by `emit`: `prepended` is `Some(name)` for a listener of the
      wildcard channel "all", which receives the event name before the arguments. */
  datatype Invocation = Invocation(callback: nat, context: Option<nat>, prepended: Option<string>)

  type Registry = map<string, seq<Listener>>

  /** The wildcard channel. */
  const AllChannel: string := "all"

  function Listeners(reg: Registry, name: string): seq<Listener> {
    if name in reg then reg[name] else []
  }

  function Repeat(l: Listener, n: nat): (r: seq<Listener>)
    ensures |r| == n && forall i :: 0 <= i < n ==> r[i] == l
  {
    if n == 0 then [] else Repeat(l, n - 1) + [l]
  }

  function Occurrences(names: seq<string>, n: string): nat {
    if names == [] then 0 else (if names[0] == n then 1 else 0) + Occurrences(names[1..], n)
  }

  // ---------------------------------------------------------------- on

  /** Appends `l` to the list of every name, left to right. */
  function Register(reg: Registry, names: seq<string>, l: Listener): Registry
    decreases |names|
  {
    if names == [] then reg
    else Register(reg[names[0] := Listeners(reg, names[0]) + [l]], names[1..], l)
  }

  /** `on(names, callback, context)`: nothing when the callback is not a function. */
  function OnSpec(reg: Registry, names: string, callback: Option<nat>, context: Option<nat>): Registry {
    if callback.None? then reg
    else Register(reg, Split(names), Listener(callback.value, context))
  }

  lemma {:induction false} RegisterEffect(reg: Registry, names: seq<string>, l: Listener, k: string)
    ensures k in Register(reg, names, l) <==> k in reg || k in names
    ensures Listeners(Register(reg, names, l), k) == Listeners(reg, k) + Repeat(l, Occurrences(names, k))
    decreases |names|
  {
    if names != [] {
      var reg' := reg[names[0] := Listeners(reg, names[0]) + [l]];
      RegisterEffect(reg', names[1..], l, k);
      assert names == [names[0]] + names[1..];
      if names[0] == k {
        assert Repeat(l, Occurrences(names, k)) == [l] + Repeat(l, Occurrences(names[1..], k)) by {
          RepeatCons(l, Occurrences(names[1..], k));
        }
      }
    }
  }

  lemma RepeatCons(l: Listener, n: nat)
    ensures Repeat(l, n + 1) == [l] + Repeat(l, n)
  {
  }

  /** `on` with a non-function callback leaves the registry as it was. */
  lemma OnNonFunction(reg: Registry, names: string, context: Option<nat>)
    ensures OnSpec(reg, names, None, context) == reg
  {
  }

  /** `on` appends one pair per occurrence of a name in the list, after the pairs that
      were already there, and touches no other name. */
  lemma OnAppends(reg: Registry, names: string, callback: nat, context: Option<nat>, k: string)
    ensures var r := OnSpec(reg, names, Some(callback), context);
      && (k in r <==> k in reg || k in Split(names))
      && Listeners(r, k) == Listeners(reg, k) + Repeat(Listener(callback, context), Occurrences(Split(names), k))
  {
    RegisterEffect(reg, Split(names), Listener(callback, context), k);
  }

  // ---------------------------------------------------------------- off

  /** Whether a pair is removed by `off`: it agrees with every supplied criterion. */
  predicate Matches(l: Listener, callback: Option<nat>, context: Option<nat>) {
    (callback.None? || l.callback == callback.value) && (context.None? || l.context == context)
  }

  /** The pairs that do not match, in their original order. */
  function Without(ls: seq<Listener>, callback: Option<nat>, context: Option<nat>): seq<Listener> {
    if ls == [] then []
    else (if Matches(ls[0], callback, context) then [] else [ls[0]]) + Without(ls[1..], callback, context)
  }

  /** No matching pair survives, and every pair that survives was in the list. */
  lemma {:induction false} WithoutDropsMatches(ls: seq<Listener>, callback: Option<nat>, context: Option<nat>)
    ensures forall i :: 0 <= i < |Without(ls, callback, context)| ==>
      !Matches(Without(ls, callback, context)[i], callback, context) && Without(ls, callback, context)[i] in ls
  {
    if ls != [] {
      WithoutDropsMatches(ls[1..], callback, context);
    }
  }

  /** The per-name step of `off` for an explicit list of names. */
  function OffNames(reg: Registry, names: seq<string>, callback: Option<nat>, context: Option<nat>): Registry {
    if names == [] then reg
    else
      var n := names[0];
      var reg' := if n !in reg || (callback.None? && context.None?) then reg - {n}
                  else reg[n := Without(reg[n], callback, context)];
      OffNames(reg', names[1..], callback, context)
  }

  /** `off(names, callback, context)`; the empty string stands for omitted (falsy) names. */
  function OffSpec(reg: Registry, names: string, callback: Option<nat>, context: Option<nat>): Registry {
    if names != "" then OffNames(reg, Split(names), callback, context)
    else if callback.Some? || context.Some? then map k | k in reg :: Without(reg[k], callback, context)
    else map[]
  }

  lemma {:induction false} WithoutIdempotent(ls: seq<Listener>, callback: Option<nat>, context: Option<nat>)
    ensures Without(Without(ls, callback, context), callback, context) == Without(ls, callback, context)
  {
    if ls != [] {
      WithoutIdempotent(ls[1..], callback, context);
      var rest := Without(ls[1..], callback, context);
      if !Matches(ls[0], callback, context) {
        var r := [ls[0]] + rest;
        assert Without(ls, callback, context) == r;
        assert r[0] == ls[0] && r[1..] == rest;
        assert Without(r, callback, context) == [ls[0]] + Without(rest, callback, context);
      } else {
        assert [] + rest == rest;
      }
    }
  }

  /** Nothing is removed from a list in which no pair matches. */
  lemma {:induction false} WithoutNoMatch(ls: seq<Listener>, callback: Option<nat>, context: Option<nat>)
    requires forall i :: 0 <= i < |ls| ==> !Matches(ls[i], callback, context)
    ensures Without(ls, callback, context) == ls
  {
    if ls != [] {
      WithoutNoMatch(ls[1..], callback, context);
      assert ls == [ls[0]] + ls[1..];
    }
  }

  /** Every pair that does not match survives `Without`, and the ones that survive keep
      their relative order: `Without` of a concatenation is the concatenation. */
  lemma {:induction false} WithoutAppend(a: seq<Listener>, b: seq<Listener>, callback: Option<nat>, context: Option<nat>)
    ensures Without(a + b, callback, context) == Without(a, callback, context) + Without(b, callback, context)
  {
    if a == [] {
      assert a + b == b;
    } else {
      WithoutAppend(a[1..], b, callback, context);
      TailOfAppend(a, b);
      var h := if Matches(a[0], callback, context) then [] else [a[0]];
      Associative(h, Without(a[1..], callback, context), Without(b, callback, context));
    }
  }

  lemma TailOfAppend(a: seq<Listener>, b: seq<Listener>)
    requires a != []
    ensures (a + b)[0] == a[0] && (a + b)[1..] == a[1..] + b
  {
  }

  lemma Associative(x: seq<Listener>, y: seq<Listener>, z: seq<Listener>)
    ensures x + (y + z) == (x + y) + z
  {
  }

  lemma WithoutStep(ls: seq<Listener>, i: nat, callback: Option<nat>, context: Option<nat>)
    requires i < |ls|
    ensures Without(ls[i..], callback, context)
            == (if Matches(ls[i], callback, context) then [] else [ls[i]]) + Without(ls[i + 1..], callback, context)
  {
    assert ls[i..][0] == ls[i] && ls[i..][1..] == ls[i + 1..];
  }

  /** One step of the backward walk: splicing out position `i` when it matches
      extends the filtered suffix by one position. */
  lemma SpliceStep(list0: seq<Listener>, i: nat, list: seq<Listener>, callback: Option<nat>, context: Option<nat>)
    requires i < |list0| && list == list0[..i + 1] + Without(list0[i + 1..], callback, context)
    ensures list[i] == list0[i]
    ensures (if Matches(list0[i], callback, context) then list[..i] + list[i + 1..] else list)
            == list0[..i] + Without(list0[i..], callback, context)
  {
    var tail := Without(list0[i + 1..], callback, context);
    SplitAt(list0, i);
    Associative(list0[..i], [list0[i]], tail);
    PieceOf(list0[..i], list0[i], tail, list);
    WithoutStep(list0, i, callback, context);
  }

  lemma SplitAt(s: seq<Listener>, i: nat)
    requires i < |s|
    ensures s[..i + 1] == s[..i] + [s[i]]
  {
  }

  lemma PieceOf(p: seq<Listener>, x: Listener, t: seq<Listener>, s: seq<Listener>)
    requires s == p + ([x] + t)
    ensures s[|p|] == x && s[..|p|] == p && s[|p| + 1..] == t
  {
  }

  /** `off()` with no arguments drops the whole registry. */
  lemma OffEverything(reg: Registry)
    ensures OffSpec(reg, "", None, None) == map[]
  {
  }

  /** `off(names)` without callback or context deletes exactly the named events. */
  lemma {:induction false} OffNamesDeletes(reg: Registry, names: seq<string>, k: string)
    ensures k in names ==> k !in OffNames(reg, names, None, None)
    ensures k !in names ==> (k in OffNames(reg, names, None, None) <==> k in reg)
    ensures k !in names && k in reg ==> OffNames(reg, names, None, None)[k] == reg[k]
  {
    if names != [] {
      OffNamesDeletes(reg - {names[0]}, names[1..], k);
      if k in names[1..] {
      } else if k == names[0] {
        OffNamesDeletesAbsent(reg - {names[0]}, names[1..], k);
      }
    }
  }

  lemma {:induction false} OffNamesDeletesAbsent(reg: Registry, names: seq<string>, k: string)
    requires k !in reg
    ensures k !in OffNames(reg, names, None, None)
  {
    if names != [] {
      OffNamesDeletesAbsent(reg - {names[0]}, names[1..], k);
    }
  }

  /** `off(names, callback, context)` with a callback or a context filters each named
      list that exists, keeps every key, and leaves unnamed events alone. */
  lemma {:induction false} OffNamesFilters(reg: Registry, names: seq<string>, callback: Option<nat>, context: Option<nat>, k: string)
    requires callback.Some? || context.Some?
    ensures k in OffNames(reg, names, callback, context) <==> k in reg
    ensures k in reg ==> OffNames(reg, names, callback, context)[k]
                         == if k in names then Without(reg[k], callback, context) else reg[k]
  {
    if names != [] {
      var n := names[0];
      var reg' := if n !in reg then reg - {n} else reg[n := Without(reg[n], callback, context)];
      OffNamesFilters(reg', names[1..], callback, context, k);
      if k in reg && k == n && k in names[1..] {
        WithoutIdempotent(reg[k], callback, context);
      }
    }
  }

  // ---------------------------------------------------------------- emit

  function Direct(ls: seq<Listener>): (r: seq<Invocation>)
    ensures |r| == |ls|
  {
    seq(|ls|, i requires 0 <= i < |ls| => Invocation(ls[i].callback, ls[i].context, None))
  }

  function ViaAll(ls: seq<Listener>, name: string): (r: seq<Invocation>)
    ensures |r| == |ls|
  {
    seq(|ls|, i requires 0 <= i < |ls| => Invocation(ls[i].callback, ls[i].context, Some(name)))
  }

  /** The calls for one event name: its own listeners, then the "all" listeners. */
  function Dispatch(reg: Registry, name: string): seq<Invocation> {
    Direct(Listeners(reg, name)) + ViaAll(Listeners(reg, AllChannel), name)
  }

  function EmitNames(reg: Registry, names: seq<string>): seq<Invocation> {
    if names == [] then [] else Dispatch(reg, names[0]) + EmitNames(reg, names[1..])
  }

  lemma EmitNamesStep(reg: Registry, names: seq<string>, e: nat)
    requires e < |names|
    ensures EmitNames(reg, names[e..]) == Dispatch(reg, names[e]) + EmitNames(reg, names[e + 1..])
  {
    assert names[e..][0] == names[e] && names[e..][1..] == names[e + 1..];
  }

  /** One iteration of `emit`'s loop over the names. */
  lemma EmitAdvance(reg: Registry, names: seq<string>, e: nat, trace: seq<Invocation>, direct: seq<Invocation>, viaAll: seq<Invocation>)
    requires e < |names| && trace + EmitNames(reg, names[e..]) == EmitNames(reg, names)
    requires direct + viaAll == Dispatch(reg, names[e])
    ensures (trace + direct + viaAll) + EmitNames(reg, names[e + 1..]) == EmitNames(reg, names)
  {
    EmitNamesStep(reg, names, e);
    var rest := EmitNames(reg, names[e + 1..]);
    assert (trace + direct + viaAll) + rest == trace + ((direct + viaAll) + rest);
  }

  function EmitSpec(reg: Registry, names: string): seq<Invocation> {
    EmitNames(reg, Split(names))
  }

  /** Emitting one event calls each of its listeners once, in registration order, then
      each "all" listener once with the event name prepended. */
  lemma EmitOne(reg: Registry, name: string)
    requires NoSpace(name)
    ensures var t := EmitSpec(reg, name);
      var ls := Listeners(reg, name);
      var all := Listeners(reg, AllChannel);
      && |t| == |ls| + |all|
      && (forall i :: 0 <= i < |ls| ==> t[i] == Invocation(ls[i].callback, ls[i].context, None))
      && (forall i :: 0 <= i < |all| ==> t[|ls| + i] == Invocation(all[i].callback, all[i].context, Some(name)))
  {
    SplitSingle(name);
    assert EmitNames(reg, [name]) == Dispatch(reg, name) + EmitNames(reg, []);
  }

  /** Names in a list are dispatched left to right. */
  lemma EmitTwo(reg: Registry, a: string, b: string)
    requires NoSpace(a) && NoSpace(b)
    ensures EmitSpec(reg, a + " " + b) == EmitSpec(reg, a) + EmitSpec(reg, b)
  {
    SplitPair(a, b);
    SplitSingle(a);
    SplitSingle(b);
    EmitNamesPair(reg, a, b);
  }

  lemma EmitNamesPair(reg: Registry, a: string, b: string)
    ensures EmitNames(reg, [a, b]) == EmitNames(reg, [a]) + EmitNames(reg, [b])
  {
    assert [a, b][1..] == [b];
    assert EmitNames(reg, [b]) == Dispatch(reg, b);
    assert EmitNames(reg, [a]) == Dispatch(reg, a);
  }

  lemma {:induction false} EmitNothingRegistered(names: seq<string>)
    ensures EmitNames(map[], names) == []
  {
    if names != [] {
      EmitNothingRegistered(names[1..]);
    }
  }

  /** After `off()` a following `emit` calls nothing. */
  lemma EmitAfterOffEverything(reg: Registry, names: string)
    ensures EmitSpec(OffSpec(reg, "", None, None), names) == []
  {
    EmitNothingRegistered(Split(names));
  }

  /** The registration scenario of the unit tests: two listeners on one event are
      stored as two pairs (four array entries) and both are called, in order. */
  lemma TwoListenersOneEvent(name: string, f: nat, g: nat)
    requires NoSpace(name) && name != AllChannel
    ensures var reg := OnSpec(OnSpec(map[], name, Some(f), None), name, Some(g), None);
      && Listeners(reg, name) == [Listener(f, None), Listener(g, None)]
      && EmitSpec(reg, name) == [Invocation(f, None, None), Invocation(g, None, None)]
  {
    SplitSingle(name);
    var reg1 := OnSpec(map[], name, Some(f), None);
    var reg := OnSpec(reg1, name, Some(g), None);
    assert Occurrences([name], name) == 1 && Occurrences([name], AllChannel) == 0;
    OnAppends(map[], name, f, None, name);
    OnAppends(map[], name, f, None, AllChannel);
    OnAppends(reg1, name, g, None, name);
    OnAppends(reg1, name, g, None, AllChannel);
    EmitOne(reg, name);
  }

  /** `off(name)` followed by `emit(name)` reaches only the "all" listeners. */
  lemma EmitAfterOffName(reg: Registry, name: string)
    requires NoSpace(name) && name != "" && name != AllChannel
    ensures EmitSpec(OffSpec(reg, name, None, None), name)
            == ViaAll(Listeners(reg, AllChannel), name)
  {
    SplitSingle(name);
    var r := OffSpec(reg, name, None, None);
    OffNamesDeletes(reg, [name], name);
    OffNamesDeletes(reg, [name], AllChannel);
    assert Listeners(r, AllChannel) == Listeners(reg, AllChannel);
    assert EmitNames(r, [name]) == Dispatch(r, name) + EmitNames(r, []);
  }

  // ---------------------------------------------------------------- the mixin

  class EventEmitter {
    var registry: Registry

    constructor()
      ensures registry == map[]
    {
      registry := map[];
    }

    method On(names: string, callback: Option<nat>, context: Option<nat>)
      modifies this
      ensures registry == OnSpec(old(registry), names, callback, context)
    {
      if callback.Some? {
        var events := Split(names);
        var l := Listener(callback.value, context);
        for i := 0 to |events|
          invariant Register(registry, events[i..], l) == Register(old(registry), events, l)
        {
          var event := events[i];
          var list := if event in registry then registry[event] else [];
          assert events[i..][0] == event && events[i..][1..] == events[i + 1..];
          registry := registry[event := list + [l]];
        }
      }
    }

    method Off(names: string, callback: Option<nat>, context: Option<nat>)
      modifies this
      ensures registry == OffSpec(old(registry), names, callback, context)
    {
      if names != "" || callback.Some? || context.Some? {
        if names != "" {
          var events := Split(names);
          for i := 0 to |events|
            invariant OffNames(registry, events[i..], callback, context) == OffNames(old(registry), events, callback, context)
          {
            var event := events[i];
            assert events[i..][0] == event && events[i..][1..] == events[i + 1..];
            if event !in registry || (callback.None? && context.None?) {
              registry := registry - {event};
            } else {
              var list := RemoveMatching(registry[event], callback, context);
              registry := registry[event := list];
            }
          }
        } else {
          var pending := registry.Keys;
          while pending != {}
            invariant pending <= registry.Keys && registry.Keys == old(registry).Keys
            invariant forall k :: k in registry ==>
              registry[k] == if k in pending then old(registry)[k] else Without(old(registry)[k], callback, context)
            decreases pending
          {
            var event :| event in pending;
            var list := RemoveMatching(registry[event], callback, context);
            registry := registry[event := list];
            pending := pending - {event};
          }
        }
      } else {
        registry := map[];
      }
    }

    /** The source walks the flat array backwards, splicing out each matching pair. */
    static method RemoveMatching(list0: seq<Listener>, callback: Option<nat>, context: Option<nat>) returns (list: seq<Listener>)
      ensures list == Without(list0, callback, context)
    {
      list := list0;
      var i := |list| - 1;
      while i >= 0
        invariant -1 <= i < |list0|
        invariant list == list0[..i + 1] + Without(list0[i + 1..], callback, context)
      {
        SpliceStep(list0, i, list, callback, context);
        if Matches(list[i], callback, context) {
          list := list[..i] + list[i + 1..];
        }
        i := i - 1;
      }
    }

    method Emit(names: string) returns (trace: seq<Invocation>)
      ensures trace == EmitSpec(registry, names)
    {
      trace := [];
      var events := Split(names);
      for e := 0 to |events|
        invariant trace + EmitNames(registry, events[e..]) == EmitNames(registry, events)
      {
        var event := events[e];
        var direct := CallDirect(Listeners(registry, event));
        var viaAll := CallViaAll(Listeners(registry, AllChannel), event);
        EmitAdvance(registry, events, e, trace, direct, viaAll);
        trace := trace + direct + viaAll;
      }
    }

    static method CallDirect(list: seq<Listener>) returns (calls: seq<Invocation>)
      ensures calls == Direct(list)
    {
      calls := [];
      for i := 0 to |list|
        invariant calls == Direct(list[..i])
      {
        calls := calls + [Invocation(list[i].callback, list[i].context, None)];
      }
      assert list[..|list|] == list;
    }

    static method CallViaAll(list: seq<Listener>, event: string) returns (calls: seq<Invocation>)
      ensures calls == ViaAll(list, event)
    {
      calls := [];
      for i := 0 to |list|
        invariant calls == ViaAll(list[..i], event)
      {
        calls := calls + [Invocation(list[i].callback, list[i].context, Some(event))];
      }
      assert list[..|list|] == list;
    }
  }
}
