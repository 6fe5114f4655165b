/** The list shown under the video: one item per committed annotation, in
    the order of the annotation list, keyed by its position and reading
    `<tag> at <HH:MM:SS> - Rectangle: (<x>, <y>, <width>, <height>)`. */
module Listing {
  import opened Types
  import opened Clock

  /** One rendered list item: its key (the annotation's index) and text. */
  datatype ListItem = ListItem(key: nat, text: string)

  /** Decimal digits of `n`, most significant first, without leading zeros. */
  function NatText(n: nat): (s: string)
    ensures |s| >= 1
    ensures forall i | 0 <= i < |s| :: IsDigit(s[i])
    ensures |s| > 1 ==> s[0] != '0'
  {
    if n < 10 then [Digit(n)] else NatText(n / 10) + [Digit(n % 10)]
  }

  /** The number written by a non-empty string of decimal digits. */
  function ParseNat(s: string): nat
    requires |s| >= 1
    requires forall i | 0 <= i < |s| :: IsDigit(s[i])
  {
    if |s| == 1 then DigitValue(s[0])
    else ParseNat(s[..|s| - 1]) * 10 + DigitValue(s[|s| - 1])
  }

  lemma {:induction false} ParseNatText(n: nat)
    ensures ParseNat(NatText(n)) == n
  {
    if n >= 10 {
      var s := NatText(n);
      assert s[..|s| - 1] == NatText(n / 10);
      ParseNatText(n / 10);
    }
  }

  /** A number as it appears in the text of a list item. */
  function IntText(n: int): (s: string)
    ensures |s| >= 1
    ensures forall i | 0 <= i < |s| :: s[i] == '-' || IsDigit(s[i])
    ensures NoComma(s)
  {
    if n < 0 then "-" + NatText(-n) else NatText(n)
  }

  /** Reads back an optionally signed decimal number. */
  function ParseInt(s: string): Option<int>
  {
    if |s| >= 2 && s[0] == '-' && forall i | 1 <= i < |s| :: IsDigit(s[i]) then
      Some(0 - ParseNat(s[1..]) as int)
    else if |s| >= 1 && forall i | 0 <= i < |s| :: IsDigit(s[i]) then
      Some(ParseNat(s))
    else
      None
  }

  /** Every coordinate reads back as itself, negative ones included. */
  lemma ParseIntText(n: int)
    ensures ParseInt(IntText(n)) == Some(n)
  {
    var s := IntText(n);
    if n < 0 {
      assert s[1..] == NatText(-n);
      ParseNatText(-n);
    } else {
      assert s[0] != '-';
      ParseNatText(n);
    }
  }

  /** An absent extent renders as nothing, a present one as its number. */
  function ExtentText(e: Option<int>): (s: string)
    ensures s == "" <==> e.None?
    ensures NoComma(s)
  {
    match e
    case None => ""
    case Some(v) => IntText(v)
  }

  /** Reads back what `ExtentText` renders: nothing is an absent extent. */
  function ParseExtent(s: string): Option<Option<int>>
  {
    if s == "" then Some(None)
    else match ParseInt(s)
      case Some(v) => Some(Some(v))
      case None => None
  }

  lemma ParseExtentText(e: Option<int>)
    ensures ParseExtent(ExtentText(e)) == Some(e)
  {
    if e.Some? {
      ParseIntText(e.value);
    }
  }

  /** The clock shown for a committed time. A missing time multiplied by
      1000 is 0, so it shows as midnight of the epoch. */
  function TimeText(t: Option<nat>): (s: string)
    ensures |s| == 8
    ensures t.None? ==> s == "00:00:00"
  {
    FormatTimestamp(if t.Some? then t.value else 0)
  }

  /** The text of the list item for one annotation. */
  function ItemText(a: Annotation): string
  {
    a.tag + " at " + TimeText(a.time) + " - Rectangle: (" + RectangleText(a.x, a.y, a.width, a.height)
  }

  /** The geometry part of an item: `x, y, width, height)`. */
  function RectangleText(x: int, y: int, width: Option<int>, height: Option<int>): string
  {
    IntText(x) + ", " + IntText(y) + ", " + ExtentText(width) + ", " + ExtentText(height) + ")"
  }

  /** The rendered list: one item per annotation, same order, keyed by index. */
  function Project(annotations: seq<Annotation>): (items: seq<ListItem>)
    ensures |items| == |annotations|
    ensures forall i | 0 <= i < |items| :: items[i].key == i
  {
    seq(|annotations|, i requires 0 <= i < |annotations| => ListItem(i, ItemText(annotations[i])))
  }

  /** Each item starts with its annotation's tag, and the eight characters
      after " at " parse back to the second of the day of its time. */
  lemma ItemShowsTagAndTime(a: Annotation)
    ensures |ItemText(a)| >= |a.tag| + 12
    ensures ItemText(a)[..|a.tag|] == a.tag
    ensures ItemText(a)[|a.tag|..|a.tag| + 4] == " at "
    ensures ParseClock(ItemText(a)[|a.tag| + 4..|a.tag| + 12])
            == Some(SecondOfDay(if a.time.Some? then a.time.value else 0))
  {
    var t := TimeText(a.time);
    var rest := " - Rectangle: (" + RectangleText(a.x, a.y, a.width, a.height);
    assert ItemText(a) == a.tag + " at " + t + rest;
    assert ItemText(a)[|a.tag| + 4..|a.tag| + 12] == t;
    ParseFormatted(if a.time.Some? then a.time.value else 0);
  }

  predicate NoComma(s: string)
  {
    forall i | 0 <= i < |s| :: s[i] != ','
  }

  /** The index of the first comma of `s`, or its length when it has none. */
  function CommaIndex(s: string): (k: nat)
    ensures k <= |s| && NoComma(s[..k])
    ensures k < |s| ==> s[k] == ','
  {
    if s == [] || s[0] == ',' then 0
    else
      var k := 1 + CommaIndex(s[1..]);
      assert s[..k] == [s[0]] + s[1..][..k - 1];
      k
  }

  /** The pieces of `s` between commas, in order. */
  function Split(s: string): (pieces: seq<string>)
    ensures |pieces| >= 1
    decreases |s|
  {
    var k := CommaIndex(s);
    if k == |s| then [s] else [s[..k]] + Split(s[k + 1..])
  }

  lemma SplitNoComma(s: string)
    requires NoComma(s)
    ensures Split(s) == [s]
  {
    var k := CommaIndex(s);
    assert k == |s|;
  }

  lemma SplitJoin(a: string, b: string)
    requires NoComma(a)
    ensures Split(a + "," + b) == [a] + Split(b)
  {
    var s := a + "," + b;
    assert s[..|a|] == a && s[|a| + 1..] == b;
    CommaIndexAt(s, |a|);
  }

  /** A comma with none before it is the first comma. */
  lemma CommaIndexAt(s: string, j: nat)
    requires j < |s| && s[j] == ',' && NoComma(s[..j])
    ensures CommaIndex(s) == j
  {
    var k := CommaIndex(s);
  }

  /** The geometry a list item shows. */
  datatype Geometry = Geometry(x: int, y: int, width: Option<int>, height: Option<int>)

  /** Reads `x, y, width, height)`, the text after "Rectangle: (" in an item. */
  function ParseRectangle(s: string): Option<Geometry>
  {
    var f := Split(s);
    if |f| == 4 && |f[1]| >= 1 && f[1][0] == ' ' && |f[2]| >= 1 && f[2][0] == ' '
       && |f[3]| >= 2 && f[3][0] == ' ' && f[3][|f[3]| - 1] == ')'
    then
      match (ParseInt(f[0]), ParseInt(f[1][1..]), ParseExtent(f[2][1..]), ParseExtent(f[3][1..|f[3]| - 1]))
      case (Some(x), Some(y), Some(w), Some(h)) => Some(Geometry(x, y, w, h))
      case _ => None
    else
      None
  }

  /** The geometry part of an item splits at its commas into the four
      fields, each after the first with its leading space. */
  lemma SplitRectangle(x: int, y: int, width: Option<int>, height: Option<int>)
    ensures Split(RectangleText(x, y, width, height))
            == [IntText(x), " " + IntText(y), " " + ExtentText(width), " " + ExtentText(height) + ")"]
  {
    var xs, ys, ws, hs := IntText(x), IntText(y), ExtentText(width), ExtentText(height);
    Regroup(xs, ys, ws, hs);
    NoCommaAround(" ", hs, ")");
    NoCommaAround(" ", ws, "");
    NoCommaAround(" ", ys, "");
    NoCommaAround("", xs, "");
    SplitFour(xs, " " + ys, " " + ws, " " + hs + ")");
  }

  /** The separators ", " of the geometry text, regrouped around the commas. */
  lemma Regroup(p: string, q: string, r: string, t: string)
    ensures p + ", " + q + ", " + r + ", " + t + ")"
            == p + "," + (" " + q + "," + (" " + r + "," + (" " + t + ")")))
  {
    assert ", " == "," + " ";
  }

  /** Four comma-free pieces joined by commas split back into themselves. */
  lemma SplitFour(a: string, b: string, c: string, d: string)
    requires NoComma(a) && NoComma(b) && NoComma(c) && NoComma(d)
    ensures Split(a + "," + (b + "," + (c + "," + d))) == [a, b, c, d]
  {
    var cd := c + "," + d;
    var bcd := b + "," + cd;
    SplitNoComma(d);
    SplitJoin(c, d);
    assert Split(cd) == [c, d];
    SplitJoin(b, cd);
    assert Split(bcd) == [b, c, d];
    SplitJoin(a, bcd);
  }

  /** Text without a comma between two comma-free pieces has none. */
  lemma NoCommaAround(pre: string, s: string, post: string)
    requires NoComma(pre) && NoComma(post)
    requires NoComma(s)
    ensures NoComma(pre + s + post)
  {
  }

  /** The geometry part of an item reads back exactly: absent extents as
      absent, negative values as negative. */
  lemma ParseRectangleText(x: int, y: int, width: Option<int>, height: Option<int>)
    ensures ParseRectangle(RectangleText(x, y, width, height)) == Some(Geometry(x, y, width, height))
  {
    var f := Split(RectangleText(x, y, width, height));
    SplitRectangle(x, y, width, height);
    assert f[1][1..] == IntText(y) && f[2][1..] == ExtentText(width);
    assert f[3][1..|f[3]| - 1] == ExtentText(height);
    ParseIntText(x);
    ParseIntText(y);
    ParseExtentText(width);
    ParseExtentText(height);
  }

  /** After the tag, " at ", the clock and " - Rectangle: (", an item shows
      the corner and the extents of its annotation, and they read back. */
  lemma ItemShowsRectangle(a: Annotation)
    ensures |ItemText(a)| >= |a.tag| + 27
    ensures ItemText(a)[|a.tag| + 12..|a.tag| + 27] == " - Rectangle: ("
    ensures ParseRectangle(ItemText(a)[|a.tag| + 27..]) == Some(Geometry(a.x, a.y, a.width, a.height))
  {
    var head := a.tag + " at " + TimeText(a.time);
    var body := RectangleText(a.x, a.y, a.width, a.height);
    assert |head| == |a.tag| + 12;
    assert ItemText(a) == head + " - Rectangle: (" + body;
    assert ItemText(a)[|a.tag| + 27..] == body;
    ParseRectangleText(a.x, a.y, a.width, a.height);
  }

  /** Appending an annotation appends exactly its item, keyed by the old
      length, and leaves every earlier item as it was. */
  lemma ProjectAppend(annotations: seq<Annotation>, a: Annotation)
    ensures Project(annotations + [a]) == Project(annotations) + [ListItem(|annotations|, ItemText(a))]
  {
    var lhs := Project(annotations + [a]);
    var rhs := Project(annotations) + [ListItem(|annotations|, ItemText(a))];
    assert forall i | 0 <= i < |lhs| :: lhs[i] == rhs[i];
  }

  /** The list of a prefix of the annotations is the prefix of the list. */
  lemma ProjectPrefix(annotations: seq<Annotation>, k: nat)
    requires k <= |annotations|
    ensures Project(annotations[..k]) == Project(annotations)[..k]
  {
  }
}
