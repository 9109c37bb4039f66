/** `Util.checkExists` of golem.util.js: whether each dotted path names a defined value,
    walked from a container object (by default the global window).  Console output is
    returned as the list of lines that would be logged. */
module Dependencies {

  /** A JavaScript value as far as a property walk can tell them apart. */
  datatype Value =
    | Undefined
    | Null
    | Primitive(truthy: bool)
    | Object(props: map<string, Value>)

  predicate Truthy(v: Value) {
    match v
    case Undefined => false
    case Null => false
    case Primitive(t) => t
    case Object(_) => true
  }

  /** The result of `value[property]`, which throws a TypeError on undefined and null. */
  datatype Walked = Reached(value: Value) | TypeError

  function Property(v: Value, p: string): (r: Walked)
    ensures r.TypeError? <==> v.Undefined? || v.Null?
  {
    match v
    case Undefined => TypeError
    case Null => TypeError
    case Primitive(_) => Reached(Undefined)
    case Object(m) => Reached(if p in m then m[p] else Undefined)
  }

  /** The walk `value = value[property]` over every property in turn. */
  function Walk(v: Value, parts: seq<string>): Walked
    decreases |parts|
  {
    if parts == [] then Reached(v)
    else match Property(v, parts[0])
      case TypeError => TypeError
      case Reached(w) => Walk(w, parts[1..])
  }

  // ---------------------------------------------------------------- split('.')

  predicate NoDot(s: string) {
    forall i :: 0 <= i < |s| ==> s[i] != '.'
  }

  /** `s.split('.')`: an empty string gives one empty part, and adjacent or edge dots
      give empty parts. */
  function SplitDots(s: string): (parts: seq<string>)
    ensures |parts| >= 1
    ensures forall i :: 0 <= i < |parts| ==> NoDot(parts[i])
  {
    if s == [] then [""]
    else if s[0] == '.' then [""] + SplitDots(s[1..])
    else
      var r := SplitDots(s[1..]);
      assert NoDot(r[0]);
      [[s[0]] + r[0]] + r[1..]
  }

  function JoinDots(parts: seq<string>): string
    requires |parts| >= 1
  {
    if |parts| == 1 then parts[0] else parts[0] + "." + JoinDots(parts[1..])
  }

  lemma {:induction false} JoinSplitDots(s: string)
    ensures JoinDots(SplitDots(s)) == s
  {
    if s != [] {
      JoinSplitDots(s[1..]);
      var r := SplitDots(s[1..]);
      if s[0] == '.' {
        assert s == "." + s[1..];
      } else {
        var parts := [[s[0]] + r[0]] + r[1..];
        if |r| == 1 {
          assert s == [s[0]] + r[0];
        } else {
          assert parts[1..] == r[1..];
          assert JoinDots(r) == r[0] + "." + JoinDots(r[1..]);
          assert s == [s[0]] + s[1..];
        }
      }
    }
  }

  lemma {:induction false} SplitDotsPrefix(a: string, t: string)
    requires NoDot(a)
    ensures SplitDots(a + t) == [a + SplitDots(t)[0]] + SplitDots(t)[1..]
  {
    if a != [] {
      assert a[0] != '.';
      SplitDotsPrefix(a[1..], t);
      var tail := SplitDots(t);
      assert (a + t)[0] == a[0] && (a + t)[1..] == a[1..] + t;
      var r := SplitDots(a[1..] + t);
      assert r[0] == a[1..] + tail[0] && r[1..] == tail[1..];
      assert [a[0]] + (a[1..] + tail[0]) == a + tail[0];
    } else {
      assert a + t == t;
      var r := SplitDots(t);
      assert a + r[0] == r[0];
      assert r == [r[0]] + r[1..];
    }
  }

  lemma {:induction false} SplitJoinDots(parts: seq<string>)
    requires |parts| >= 1
    requires forall i :: 0 <= i < |parts| ==> NoDot(parts[i])
    ensures SplitDots(JoinDots(parts)) == parts
  {
    if |parts| == 1 {
      SplitDotsPrefix(parts[0], "");
      assert SplitDots("") == [""];
      assert parts[0] + "" == parts[0];
      assert parts == [parts[0]];
    } else {
      SplitJoinDots(parts[1..]);
      var t := "." + JoinDots(parts[1..]);
      SplitDotsPrefix(parts[0], t);
      assert t[0] == '.' && t[1..] == JoinDots(parts[1..]);
      assert SplitDots(t) == [""] + parts[1..];
      assert parts[0] + "" == parts[0];
      assert parts[0] + "." + JoinDots(parts[1..]) == parts[0] + t;
      assert parts == [parts[0]] + parts[1..];
    }
  }

  // ---------------------------------------------------------------- checkExists

  /** A single dotted path, or an array of them. */
  datatype Deps = Single(path: string) | Several(paths: seq<string>)

  /** The returned `exists`: for an empty array it is never assigned (undefined). */
  datatype Answer = Exists(defined: bool) | NoAnswer

  datatype Outcome = Returned(answer: Answer, log: seq<string>) | Threw(log: seq<string>)

  function Message(path: string): string {
    path + " is undefined."
  }

  function LogLine(path: string, found: bool, silent: bool): seq<string> {
    if !silent && !found then [Message(path)] else []
  }

  /** `container || window`. */
  function Root(container: Value, window: Value): Value {
    if Truthy(container) then container else window
  }

  /** Checks the paths left to right from `root`, appending to `log`; the exists of the
      last path is the answer. */
  function CheckPaths(root: Value, paths: seq<string>, silent: bool, answer: Answer, log: seq<string>): Outcome
    decreases |paths|
  {
    if paths == [] then Returned(answer, log)
    else match Walk(root, SplitDots(paths[0]))
      case TypeError => Threw(log)
      case Reached(v) =>
        var found := !v.Undefined?;
        CheckPaths(root, paths[1..], silent, Exists(found), log + LogLine(paths[0], found, silent))
  }

  function CheckExistsSpec(deps: Deps, container: Value, window: Value, silent: bool): Outcome {
    var root := Root(container, window);
    match deps
    case Single(p) => CheckPaths(root, [p], silent, NoAnswer, [])
    case Several(ps) => CheckPaths(root, ps, silent, NoAnswer, [])
  }

  /** The imperative walk of the source: `value` is reassigned per property and reset to
      the root before the next path. */
  method CheckExists(deps: Deps, container: Value, window: Value, silent: bool) returns (outcome: Outcome)
    ensures outcome == CheckExistsSpec(deps, container, window, silent)
  {
    var root := if Truthy(container) then container else window;
    var paths := if deps.Single? then [deps.path] else deps.paths;
    var found := NoAnswer;
    var log := [];
    for k := 0 to |paths|
      invariant CheckPaths(root, paths[k..], silent, found, log) == CheckExistsSpec(deps, container, window, silent)
    {
      var value := root;
      var parts := SplitDots(paths[k]);
      for i := 0 to |parts|
        invariant Walk(root, parts) == Walk(value, parts[i..])
      {
        assert parts[i..][0] == parts[i] && parts[i..][1..] == parts[i + 1..];
        var next := Property(value, parts[i]);
        if next.TypeError? {
          outcome := Threw(log);
          assert paths[k..][0] == paths[k];
          return;
        }
        value := next.value;
      }
      assert paths[k..][0] == paths[k] && paths[k..][1..] == paths[k + 1..];
      var defined := !value.Undefined?;
      found := Exists(defined);
      log := log + LogLine(paths[k], defined, silent);
    }
    outcome := Returned(found, log);
  }

  // ---------------------------------------------------------------- properties

  /** A single path: true exactly when the walk ends on a defined value (null counts as
      defined), one message when it does not and `silent` is false, and a TypeError when
      an intermediate value is undefined or null. */
  lemma CheckSingle(path: string, container: Value, window: Value, silent: bool)
    ensures Walk(Root(container, window), SplitDots(path)).TypeError? ==>
      CheckExistsSpec(Single(path), container, window, silent) == Threw([])
    ensures Walk(Root(container, window), SplitDots(path)).Reached? ==>
      var found := !Walk(Root(container, window), SplitDots(path)).value.Undefined?;
      CheckExistsSpec(Single(path), container, window, silent) == Returned(Exists(found), LogLine(path, found, silent))
  {
    var root := Root(container, window);
    assert [path][0] == path && [path][1..] == [];
    assert CheckExistsSpec(Single(path), container, window, silent) == CheckPaths(root, [path], silent, NoAnswer, []);
    var w := Walk(root, SplitDots(path));
    if w.Reached? {
      var found := !w.value.Undefined?;
      var lines := LogLine(path, found, silent);
      assert CheckPaths(root, [path], silent, NoAnswer, []) == CheckPaths(root, [], silent, Exists(found), [] + lines);
      assert [] + lines == lines;
    }
  }

  /** For an array every path starts from the root again, the messages of all paths are
      logged in order, and only the last path decides the answer. */
  lemma {:induction false} CheckSeveralLast(root: Value, paths: seq<string>, silent: bool, answer: Answer, log: seq<string>)
    requires forall i :: 0 <= i < |paths| ==> Walk(root, SplitDots(paths[i])).Reached?
    ensures var o := CheckPaths(root, paths, silent, answer, log);
      && o.Returned?
      && o.answer == (if paths == [] then answer
                      else Exists(!Walk(root, SplitDots(paths[|paths| - 1])).value.Undefined?))
      && o.log == log + Logged(root, paths, silent)
    decreases |paths|
  {
    if paths != [] {
      var v := Walk(root, SplitDots(paths[0])).value;
      var line := LogLine(paths[0], !v.Undefined?, silent);
      CheckSeveralLast(root, paths[1..], silent, Exists(!v.Undefined?), log + line);
      LinesAssociate(log, line, Logged(root, paths[1..], silent));
    }
  }

  /** For an array in which path `k` walks through undefined or null, the call throws
      there: the paths before it have been walked and have logged their messages, and
      no later path is walked. */
  lemma {:induction false} CheckThrowsAt(root: Value, paths: seq<string>, silent: bool, answer: Answer, log: seq<string>, k: nat)
    requires k < |paths|
    requires forall i :: 0 <= i < k ==> Walk(root, SplitDots(paths[i])).Reached?
    requires Walk(root, SplitDots(paths[k])).TypeError?
    ensures CheckPaths(root, paths, silent, answer, log) == Threw(log + Logged(root, paths[..k], silent))
    decreases k
  {
    if k == 0 {
      assert paths[..0] == [];
    } else {
      var v := Walk(root, SplitDots(paths[0])).value;
      var line := LogLine(paths[0], !v.Undefined?, silent);
      assert paths[1..][k - 1] == paths[k];
      CheckThrowsAt(root, paths[1..], silent, Exists(!v.Undefined?), log + line, k - 1);
      assert paths[..k][0] == paths[0] && paths[..k][1..] == paths[1..][..k - 1];
      LinesAssociate(log, line, Logged(root, paths[1..][..k - 1], silent));
    }
  }

  lemma LinesAssociate(a: seq<string>, b: seq<string>, c: seq<string>)
    ensures a + b + c == a + (b + c)
  {
  }

  /** The messages a sequence of walkable paths produces. */
  function Logged(root: Value, paths: seq<string>, silent: bool): seq<string>
    decreases |paths|
  {
    if paths == [] then []
    else
      var w := Walk(root, SplitDots(paths[0]));
      (if w.Reached? then LogLine(paths[0], !w.value.Undefined?, silent) else []) + Logged(root, paths[1..], silent)
  }

  /** An empty array never assigns `exists`, so the call returns undefined. */
  lemma CheckNone(container: Value, window: Value, silent: bool)
    ensures CheckExistsSpec(Several([]), container, window, silent) == Returned(NoAnswer, [])
  {
  }

  lemma SplitPlain(p: string)
    requires NoDot(p)
    ensures SplitDots(p) == [p]
  {
    SplitJoinDots([p]);
  }

  lemma SplitTwo(p: string, q: string)
    requires NoDot(p) && NoDot(q)
    ensures SplitDots(p + "." + q) == [p, q]
  {
    SplitJoinDots([p, q]);
    assert JoinDots([p, q]) == p + "." + JoinDots([q]);
  }

  // The unit-test scenarios, stated for any property names.

  /** A property of the given container is found; a missing one is logged by name. */
  lemma ExampleOwnProperty(p: string, m: map<string, Value>)
    requires NoDot(p)
    ensures p in m && !m[p].Undefined? ==>
      CheckExistsSpec(Single(p), Object(m), Undefined, false) == Returned(Exists(true), [])
    ensures p !in m ==>
      CheckExistsSpec(Single(p), Object(m), Undefined, false) == Returned(Exists(false), [p + " is undefined."])
  {
    SplitPlain(p);
    assert [p][1..] == [];
    var v := if p in m then m[p] else Undefined;
    assert Walk(Object(m), [p]) == Walk(v, []) == Reached(v);
    CheckSingle(p, Object(m), Undefined, false);
  }

  /** A window holding `g.u` (for example `Golem.Util`) and `j` (for example `jasmine`). */
  function NestedWindow(g: string, u: string, j: string): Value {
    Object(map[g := Object(map[u := Object(map[])]), j := Object(map[])])
  }

  /** Without a container the walk starts at the window and follows dotted names. */
  lemma ExampleNestedFromWindow(g: string, u: string, j: string)
    requires NoDot(g) && NoDot(u) && g != j
    ensures CheckExistsSpec(Single(g + "." + u), Undefined, NestedWindow(g, u, j), false) == Returned(Exists(true), [])
  {
    SplitTwo(g, u);
    var w := NestedWindow(g, u, j);
    assert [g, u][1..] == [u] && [u][1..] == [];
    assert Walk(w, [g, u]) == Walk(w.props[g], [u]);
    assert Walk(w.props[g], [u]) == Walk(Object(map[]), []);
    CheckSingle(g + "." + u, Undefined, w, false);
  }

  /** For an array the answer is the last path's: two present names give true. */
  lemma ExampleArrayPresent(g: string, u: string, j: string)
    requires NoDot(g) && NoDot(j) && g != j
    ensures CheckExistsSpec(Several([g, j]), Undefined, NestedWindow(g, u, j), false) == Returned(Exists(true), [])
  {
    var w := NestedWindow(g, u, j);
    SplitPlain(g);
    SplitPlain(j);
    assert [g][1..] == [] && [j][1..] == [];
    assert Walk(w, [g]) == Walk(w.props[g], []);
    assert Walk(w, [j]) == Walk(w.props[j], []);
    assert Logged(w, [g, j], false) == [] by {
      assert [g, j][1..] == [j];
      assert Logged(w, [j], false) == [] + Logged(w, [], false);
    }
    CheckSeveralLast(w, [g, j], false, NoAnswer, []);
  }

  /** A missing last name gives false and is logged, after a present one that is not. */
  lemma ExampleArrayLastMissing(g: string, u: string, j: string, x: string)
    requires NoDot(g) && NoDot(u) && NoDot(x) && g != j && x != u
    ensures CheckExistsSpec(Several([g + "." + u, g + "." + x]), Undefined, NestedWindow(g, u, j), false)
            == Returned(Exists(false), [g + "." + x + " is undefined."])
  {
    var w := NestedWindow(g, u, j);
    var ps := [g + "." + u, g + "." + x];
    SplitTwo(g, u);
    SplitTwo(g, x);
    assert [g, u][1..] == [u] && [u][1..] == [] && [g, x][1..] == [x] && [x][1..] == [];
    assert Walk(w, [g, u]) == Walk(w.props[g], [u]);
    assert Walk(w.props[g], [u]) == Walk(Object(map[]), []);
    assert Walk(w, [g, x]) == Walk(w.props[g], [x]);
    assert Walk(w.props[g], [x]) == Walk(Undefined, []);
    assert ps[1..] == [g + "." + x];
    assert Logged(w, ps, false) == [g + "." + x + " is undefined."] by {
      assert Logged(w, [g + "." + x], false) == [Message(g + "." + x)] + Logged(w, [], false);
    }
    CheckSeveralLast(w, ps, false, NoAnswer, []);
  }

  /** `silent` suppresses the message; a missing intermediate object throws. */
  lemma ExampleSilentAndThrowing(p: string, q: string, m: map<string, Value>)
    requires NoDot(p) && NoDot(q) && p !in m
    ensures CheckExistsSpec(Single(p), Object(m), Undefined, true) == Returned(Exists(false), [])
    ensures CheckExistsSpec(Single(p + "." + q), Object(m), Undefined, false) == Threw([])
  {
    SplitPlain(p);
    SplitTwo(p, q);
    assert [p, q][1..] == [q] && [p][1..] == [];
    assert Walk(Object(m), [p, q]) == Walk(Undefined, [q]);
    assert Walk(Object(m), [p]) == Walk(Undefined, []);
    CheckSingle(p, Object(m), Undefined, true);
    CheckSingle(p + "." + q, Object(m), Undefined, false);
  }
}
