/** The Widget base of golem.ui.widget.js: anchor keywords resolved to a pixel
    coordinate, the width and height of a sprite grid, the `children` list that lives
    on the prototype, and the `buildWidget` factory.  Canvas sizes are parameters. */
module Widgets {
  import opened Wrappers
  import Text

  // ---------------------------------------------------------------- parseInt

  /** The result of `parseInt(x, 10)`. */
  datatype ParsedInt = Int(n: int) | NaN

  /** Truncation toward zero, as `parseInt` does to the decimal text of a number. */
  function Trunc(x: real): (n: int)
    ensures x >= 0.0 ==> n as real <= x < n as real + 1.0
    ensures x < 0.0 ==> n as real - 1.0 < x <= n as real
  {
    if x >= 0.0 then x.Floor else -((-x).Floor)
  }

  predicate IsDigit(c: char) {
    '0' <= c <= '9'
  }

  function DigitValue(c: char): nat
    requires IsDigit(c)
  {
    (c as int) - ('0' as int)
  }

  /** The longest run of decimal digits at the front of `s`. */
  function DigitRun(s: string): (d: string)
    ensures |d| <= |s| && d == s[..|d|]
    ensures forall i :: 0 <= i < |d| ==> IsDigit(d[i])
    ensures |d| < |s| ==> !IsDigit(s[|d|])
  {
    if s == [] || !IsDigit(s[0]) then []
    else
      var rest := DigitRun(s[1..]);
      assert s[..1 + |rest|] == [s[0]] + s[1..][..|rest|];
      [s[0]] + rest
  }

  /** The value of a string of decimal digits. */
  function DigitsValue(d: string): nat
    requires forall i :: 0 <= i < |d| ==> IsDigit(d[i])
  {
    if d == [] then 0 else DigitsValue(d[..|d| - 1]) * 10 + DigitValue(d[|d| - 1])
  }

  /** `parseInt(s, 10)`: leading white space, an optional sign, then the digits up to
      the first non-digit; no digit at all gives NaN. */
  function ParseInt(s: string): ParsedInt {
    var t := Text.DropSpaces(s);
    var negative := t != [] && t[0] == '-';
    var u := if t != [] && (t[0] == '-' || t[0] == '+') then t[1..] else t;
    var d := DigitRun(u);
    if d == [] then NaN
    else if negative then Int(0 - DigitsValue(d) as int)
    else Int(DigitsValue(d))
  }

  function DigitChar(n: nat): (c: char)
    requires n < 10
    ensures IsDigit(c) && DigitValue(c) == n
  {
    ('0' as int + n) as char
  }

  /** The decimal text of a natural number, without leading zeros. */
  function Digits(n: nat): (d: string)
    ensures d != [] && forall i :: 0 <= i < |d| ==> IsDigit(d[i])
  {
    if n < 10 then [DigitChar(n)] else Digits(n / 10) + [DigitChar(n % 10)]
  }

  /** `String(n)` for an integer. */
  function DecimalString(n: int): string {
    if n < 0 then "-" + Digits(-n) else Digits(n)
  }

  lemma {:induction false} DigitsValueOf(n: nat)
    ensures DigitsValue(Digits(n)) == n
  {
    if n >= 10 {
      DigitsValueOf(n / 10);
      var d := Digits(n);
      assert d[..|d| - 1] == Digits(n / 10);
    }
  }

  lemma DigitRunAll(d: string)
    requires forall i :: 0 <= i < |d| ==> IsDigit(d[i])
    ensures DigitRun(d) == d
  {
    var r := DigitRun(d);
    assert |r| == |d|;
  }

  /** `parseInt` reads back the decimal text of every integer. */
  lemma ParseDecimalString(n: int)
    ensures ParseInt(DecimalString(n)) == Int(n)
  {
    var s := DecimalString(n);
    var m: nat := if n < 0 then -n else n;
    var d := Digits(m);
    assert !Text.IsSpace(s[0]);
    assert Text.DropSpaces(s) == s;
    if n < 0 {
      assert s[1..] == d;
    }
    DigitRunAll(d);
    DigitsValueOf(m);
  }

  // ---------------------------------------------------------------- positions

  /** The `position` option: a string (an anchor keyword or any other text), a number,
      or omitted. */
  datatype PositionArg = Keyword(name: string) | Number(x: real) | Absent

  /** `getNormalizedPositionValue(position, size, stage, offset)`; an omitted or falsy
      offset counts as 0 and only matters for keywords. */
  function NormalizedPosition(position: PositionArg, size: real, stage: real, offset: Option<real>): ParsedInt {
    match position
    case Keyword(k) =>
      var off := offset.GetOr(0.0);
      if k == "top" || k == "left" then Int(Trunc(off))
      else if k == "middle" then Int(Trunc((stage - size) / 2.0 + off))
      else if k == "right" || k == "bottom" then Int(Trunc(stage - size - off))
      else ParseInt(k)
    case Number(x) => Int(Trunc(x))
    case Absent => NaN
  }

  /** The anchors: `top`/`left` is the offset, `middle` centres the widget and
      `right`/`bottom` aligns its far edge `offset` pixels from the stage edge, each
      truncated toward zero; any other string is parsed as an integer. */
  lemma AnchorsResolve(size: real, stage: real, offset: Option<real>)
    ensures var off := offset.GetOr(0.0);
      && NormalizedPosition(Keyword("top"), size, stage, offset) == Int(Trunc(off))
      && NormalizedPosition(Keyword("left"), size, stage, offset) == Int(Trunc(off))
      && NormalizedPosition(Keyword("middle"), size, stage, offset) == Int(Trunc((stage - size) / 2.0 + off))
      && NormalizedPosition(Keyword("right"), size, stage, offset) == Int(Trunc(stage - size - off))
      && NormalizedPosition(Keyword("bottom"), size, stage, offset) == Int(Trunc(stage - size - off))
    ensures NormalizedPosition(Keyword("top"), size, stage, None) == Int(0)
  {
  }

  /** A widget no larger than the stage is centred: the space left after it exceeds
      the space before it by less than two pixels of truncation. */
  lemma MiddleCentres(size: real, stage: real)
    requires size <= stage
    ensures var p := NormalizedPosition(Keyword("middle"), size, stage, None).n as real;
      0.0 <= (stage - size - p) - p < 2.0
  {
  }

  /** A numeric position is truncated and the offset is ignored. */
  lemma NumberIgnoresOffset(x: real, size: real, stage: real, offset: Option<real>)
    ensures NormalizedPosition(Number(x), size, stage, offset) == Int(Trunc(x))
    ensures NormalizedPosition(Number(x), size, stage, offset) == NormalizedPosition(Number(x), size, stage, None)
  {
  }

  lemma PositionExamples()
    ensures NormalizedPosition(Keyword("middle"), 50.0, 200.0, Some(0.0)) == Int(75)
    ensures NormalizedPosition(Keyword("right"), 50.0, 200.0, Some(10.0)) == Int(140)
    ensures NormalizedPosition(Number(-7.5), 50.0, 200.0, Some(10.0)) == Int(-7)
  {
  }

  // ---------------------------------------------------------------- width and height

  /** `setWidthHeight`: a grid of `rows` by `columns` frames. */
  datatype Size = Size(width: real, height: real)

  function WidthHeight(frameWidth: real, frameHeight: real, rows: nat, columns: nat): (s: Size)
    ensures columns > 0 ==> s.width / columns as real == frameWidth
    ensures rows > 0 ==> s.height / rows as real == frameHeight
    ensures columns == 0 ==> s.width == 0.0
    ensures rows == 0 ==> s.height == 0.0
  {
    Size(frameWidth * columns as real, frameHeight * rows as real)
  }

  // ---------------------------------------------------------------- children

  /** `Widget.prototype`, which owns the one `children` array. */
  class WidgetPrototype {
    var children: seq<object>

    constructor()
      ensures children == []
    {
      children := [];
    }
  }

  class Widget {
    /** Undefined until `setWidthHeight` is called: the source's constructor sets
        only `stage`. */
    var width: Option<real>
    var height: Option<real>
    const proto: WidgetPrototype

    constructor(p: WidgetPrototype)
      ensures proto == p && width == None && height == None
    {
      proto := p;
      width, height := None, None;
    }

    function Children(): seq<object>
      reads this, proto
    {
      proto.children
    }

    /** `addChild` pushes onto the prototype's array, seen by every widget. */
    method AddChild(w: object)
      modifies proto
      ensures proto.children == old(proto.children) + [w]
    {
      proto.children := proto.children + [w];
    }

    method SetWidthHeight(frameWidth: real, frameHeight: real, rows: nat, columns: nat)
      modifies this
      ensures width == Some(WidthHeight(frameWidth, frameHeight, rows, columns).width)
      ensures height == Some(WidthHeight(frameWidth, frameHeight, rows, columns).height)
    {
      width := Some(frameWidth * columns as real);
      height := Some(frameHeight * rows as real);
    }
  }

  /** Two widgets built on one prototype: a child added through either is a child of
      both. */
  method SharedChildren(x: object, y: object) returns (a: Widget, b: Widget)
    ensures a != b && a.Children() == b.Children() == [x, y]
  {
    var p := new WidgetPrototype();
    a := new Widget(p);
    b := new Widget(p);
    a.AddChild(x);
    b.AddChild(y);
  }

  // ---------------------------------------------------------------- buildWidget

  datatype WidgetType = CollectionType | ButtonBarType | DataType | FillBarType | MenuType | UtilityType

  /** The key of each constructor in `definitions`. */
  function TypeName(t: WidgetType): string {
    match t
    case CollectionType => "Collection"
    case ButtonBarType => "ButtonBar"
    case DataType => "Data"
    case FillBarType => "FillBar"
    case MenuType => "Menu"
    case UtilityType => "Utility"
  }

  /** `definitions[name]`. */
  function Definition(name: string): Option<WidgetType> {
    if name == "Collection" then Some(CollectionType)
    else if name == "ButtonBar" then Some(ButtonBarType)
    else if name == "Data" then Some(DataType)
    else if name == "FillBar" then Some(FillBarType)
    else if name == "Menu" then Some(MenuType)
    else if name == "Utility" then Some(UtilityType)
    else None
  }

  /** `new definitions[options.type](options, stage)`: `new undefined` is a TypeError. */
  datatype Built = Constructs(t: WidgetType) | NotAConstructor

  function BuildWidget(typeName: Option<string>): Built {
    if typeName.None? then NotAConstructor
    else match Definition(typeName.value)
      case Some(t) => Constructs(t)
      case None => NotAConstructor
  }

  /** The factory builds exactly the six registered types, each from its own name. */
  lemma BuildWidgetByName(t: WidgetType, name: string)
    ensures BuildWidget(Some(TypeName(t))) == Constructs(t)
    ensures BuildWidget(Some(name)) == Constructs(t) <==> name == TypeName(t)
    ensures BuildWidget(None) == NotAConstructor
  {
  }
}
