/** Splitting a string on runs of whitespace, as `String.prototype.split(/\s+/)` does. */
module Text {

  /** The characters JavaScript's `\s` class matches. */
  predicate IsSpace(c: char) {
    c == ' ' || c == '\t' || c == '\n' || c == '\U{0B}' || c == '\U{0C}' || c == '\r'
    || c == '\U{A0}' || c == '\U{1680}' || ('\U{2000}' <= c <= '\U{200A}')
    || c == '\U{2028}' || c == '\U{2029}' || c == '\U{202F}' || c == '\U{205F}'
    || c == '\U{3000}' || c == '\U{FEFF}'
  }

  predicate NoSpace(s: string) {
    forall i :: 0 <= i < |s| ==> !IsSpace(s[i])
  }

  /** Index of the first whitespace character, or |s| when there is none. */
  function FirstSpace(s: string): (k: nat)
    ensures k <= |s|
    ensures k < |s| ==> IsSpace(s[k])
    ensures NoSpace(s[..k])
  {
    if s == [] then 0
    else if IsSpace(s[0]) then 0
    else
      var k := 1 + FirstSpace(s[1..]);
      assert s[..k] == [s[0]] + s[1..][..k - 1];
      k
  }

  /** `s` without its leading whitespace. */
  function DropSpaces(s: string): (r: string)
    ensures |r| <= |s| && r == s[|s| - |r|..]
    ensures r != [] ==> !IsSpace(r[0])
  {
    if s != [] && IsSpace(s[0]) then DropSpaces(s[1..]) else s
  }

  /** The pieces between maximal runs of whitespace; leading or trailing whitespace
      yields an empty first or last piece, and the empty string one empty piece. */
  function Split(s: string): (parts: seq<string>)
    ensures |parts| >= 1
    ensures forall i :: 0 <= i < |parts| ==> NoSpace(parts[i])
    decreases |s|
  {
    var k := FirstSpace(s);
    if k == |s| then
      assert s[..k] == s;
      [s]
    else
      [s[..k]] + Split(DropSpaces(s[k + 1..]))
  }

  /** A name without whitespace is its own single piece. */
  lemma SplitSingle(s: string)
    requires NoSpace(s)
    ensures Split(s) == [s]
  {
    assert FirstSpace(s) == |s|;
  }

  /** Two names separated by one space split into exactly those two names. */
  lemma SplitPair(a: string, b: string)
    requires NoSpace(a) && NoSpace(b)
    ensures Split(a + " " + b) == [a, b]
  {
    var s := a + " " + b;
    var k := FirstSpace(s);
    assert s[|a|] == ' ';
    assert k == |a|;
    assert s[..k] == a;
    assert s[k + 1..] == b;
    assert DropSpaces(b) == b;
    SplitSingle(b);
  }

  /** The names joined by single spaces. */
  function JoinSpaces(names: seq<string>): string
    decreases |names|
  {
    if names == [] then ""
    else if |names| == 1 then names[0]
    else names[0] + " " + JoinSpaces(names[1..])
  }

  /** The first white space of `a + t` is the one `t` starts with, when `a` has none. */
  lemma {:induction false} FirstSpaceAfter(a: string, t: string)
    requires NoSpace(a) && t != [] && IsSpace(t[0])
    ensures FirstSpace(a + t) == |a|
    decreases |a|
  {
    if a != [] {
      assert (a + t)[1..] == a[1..] + t;
      FirstSpaceAfter(a[1..], t);
    }
  }

  /** A name, a space, and a rest that does not start with white space split into
      the name followed by the pieces of the rest. */
  lemma SplitCons(a: string, t: string)
    requires NoSpace(a) && DropSpaces(t) == t
    ensures Split(a + " " + t) == [a] + Split(t)
  {
    var s := a + " " + t;
    assert s == a + (" " + t);
    FirstSpaceAfter(a, " " + t);
    assert s[..|a|] == a;
    assert s[|a| + 1..] == t;
  }

  /** A string that does not start with white space has none to drop. */
  lemma DropNothing(x: string)
    requires x == [] || !IsSpace(x[0])
    ensures DropSpaces(x) == x
  {
  }

  /** A join whose first name is non-empty, or which is a single name, begins with no
      white space. */
  lemma JoinStartsClean(names: seq<string>)
    requires names != [] && NoSpace(names[0])
    requires names[0] != [] || |names| == 1
    ensures DropSpaces(JoinSpaces(names)) == JoinSpaces(names)
  {
    var j := JoinSpaces(names);
    if |names| > 1 {
      var first := names[0];
      assert j == first + " " + JoinSpaces(names[1..]);
      assert j[0] == first[0];
      assert !IsSpace(first[0]);
    } else {
      assert j == names[0];
    }
    DropNothing(j);
  }

  lemma HeadTail<T>(s: seq<T>)
    requires s != []
    ensures s == [s[0]] + s[1..]
  {
  }

  /** Predicate of the lists `SplitJoinSpaces` reads back: no name with white space,
      and no empty name except possibly the first and the last. */
  predicate Joinable(names: seq<string>) {
    && (forall i :: 0 <= i < |names| ==> NoSpace(names[i]))
    && (forall i :: 0 < i < |names| - 1 ==> names[i] != [])
  }

  lemma JoinableTail(names: seq<string>)
    requires |names| > 1 && Joinable(names)
    ensures Joinable(names[1..])
    ensures NoSpace(names[0]) && NoSpace(names[1])
    ensures names[1] != [] || |names| == 2
  {
    var rest := names[1..];
    forall i | 0 <= i < |rest| ensures rest[i] == names[i + 1] {
    }
  }

  /** One step of the round trip: the first name comes off the front. */
  lemma SplitJoinStep(names: seq<string>)
    requires |names| > 1 && Joinable(names)
    ensures Split(JoinSpaces(names)) == [names[0]] + Split(JoinSpaces(names[1..]))
  {
    var a, rest := names[0], names[1..];
    JoinableTail(names);
    assert rest[0] == names[1];
    var t := JoinSpaces(rest);
    assert JoinSpaces(names) == a + " " + t;
    JoinStartsClean(rest);
    SplitCons(a, t);
  }

  /** Splitting a space-joined list of names gives back the list, provided no name
      contains white space and no inner name is empty (an empty inner name would be
      a second space, which the run `\s+` swallows). */
  lemma {:induction false} SplitJoinSpaces(names: seq<string>)
    requires names != [] && Joinable(names)
    ensures Split(JoinSpaces(names)) == names
    decreases |names|
  {
    if |names| == 1 {
      SplitSingle(names[0]);
    } else {
      SplitJoinStep(names);
      JoinableTail(names);
      SplitJoinSpaces(names[1..]);
      HeadTail(names);
    }
  }
}
