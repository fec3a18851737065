/** Printed lines are recognised by the boundary parser, with the size of the range they name. */
module BoundaryText {
  import opened Numbers
  import opened Text
  import opened Boundary
  import H = Hashline
  import R = HashlineRoundTrip

  predicate GoodTag(tag: string) {
    |tag| == 2 && IsLetter(tag[0]) && IsLetter(tag[1])
  }

  predicate GoodPlace(p: R.Place) { p.line >= 1 && GoodTag(p.tag) }

  /** No leading zero. */
  lemma {:induction false} DecimalHead(n: nat)
    requires n >= 1
    ensures R.Decimal(n)[0] != '0'
  {
    if n >= 10 {
      DecimalHead(n / 10);
    }
  }

  lemma PlaceRead(p: R.Place, rest: string)
    requires GoodPlace(p)
    ensures var s := R.PrintPlace(p) + rest;
            AnchorLength(s) == |R.PrintPlace(p)| && LineOf(s) == p.line && s[AnchorLength(s)..] == rest
  {
    var d, s := R.Decimal(p.line), R.PrintPlace(p) + rest;
    DecimalHead(p.line);
    assert s == d + (p.tag + rest);
    R.DigitRunOf(d, p.tag + rest);
    assert s[..|d|] == d && s[|d|] == p.tag[0] && s[|d| + 1] == p.tag[1];
  }

  lemma PlaceChars(p: R.Place)
    requires GoodPlace(p)
    ensures HasNoSpace(R.PrintPlace(p))
  {
    assert !IsSpace(p.tag[0]) && !IsSpace(p.tag[1]);
    assert forall c | c in R.PrintPlace(p) :: c in R.Decimal(p.line) || c == p.tag[0] || c == p.tag[1];
  }

  lemma PlaceIsAnchor(p: R.Place)
    requires GoodPlace(p)
    ensures HasNoSpace(R.PrintPlace(p)) && IsAnchor(R.PrintPlace(p)) && LineOf(R.PrintPlace(p)) == p.line
  {
    PlaceRead(p, "");
    assert R.PrintPlace(p) + "" == R.PrintPlace(p);
    PlaceChars(p);
  }

  lemma SignedLine(sign: char, body: string)
    requires H.IsSign(sign) && HasNoSpace(body)
    ensures KindOf([sign] + body) == OpKind(sign, body)
  {
    var line := [sign] + body;
    assert line[0] == sign && line[1..] == body;
    TrimOfSpaceless(body);
  }

  lemma InsertLineRead(sign: char, p: R.Place)
    requires (sign == H.BEFORE || sign == H.AFTER) && GoodPlace(p)
    ensures KindOf([sign] + R.PrintPlace(p)) == Insert
  {
    PlaceIsAnchor(p);
    SignedLine(sign, R.PrintPlace(p));
  }

  lemma RangeRead(x: string, y: string)
    requires var body := x + (".." + y); AnchorLength(body) == |x| && x != ""
    requires IsAnchor(y)
    ensures var body := x + (".." + y);
            IsRange(body) && RangeSize(body) == Max(1, LineOf(y) - LineOf(body) + 1)
  {
    var rest := ".." + y;
    var body := x + rest;
    assert body[|x|..] == rest && rest[..2] == ".." && body[|x| + 2..] == y;
  }

  lemma RangeIsWord(x: string, y: string)
    requires HasNoSpace(x) && HasNoSpace(y)
    ensures HasNoSpace(x + (".." + y))
  {
    assert forall c | c in x + (".." + y) :: c in x || c == '.' || c in y;
  }

  lemma SingleRead(x: string)
    requires IsAnchor(x)
    ensures IsRange(x) && RangeSize(x) == 1
  {
  }

  lemma ReplaceLine(body: string)
    requires IsRange(body) && HasNoSpace(body)
    ensures KindOf([H.REPLACE] + body) == Replace(RangeSize(body))
  {
    SignedLine(H.REPLACE, body);
  }

  /** A replacement deletes the lines of its range, at least one. */
  lemma ReplaceLineRead(p: R.Place, q: R.Place)
    requires GoodPlace(p) && GoodPlace(q)
    ensures KindOf([H.REPLACE] + R.PrintPlace(p)) == Replace(1)
    ensures KindOf([H.REPLACE] + (R.PrintPlace(p) + (".." + R.PrintPlace(q))))
            == Replace(if p.line <= q.line then q.line - p.line + 1 else 1)
  {
    var x, y := R.PrintPlace(p), R.PrintPlace(q);
    PlaceIsAnchor(p);
    PlaceIsAnchor(q);
    SingleRead(x);
    ReplaceLine(x);
    PlaceRead(p, ".." + y);
    RangeRead(x, y);
    RangeIsWord(x, y);
    ReplaceLine(x + (".." + y));
  }

  lemma HeaderRead(target: string)
    requires Trim(target) == target && (target != "" ==> target[0] != H.SECTION)
    ensures KindOf([H.SECTION] + target) == FileHeader(target)
  {
    var line := [H.SECTION] + target;
    assert line[0] == H.SECTION && line[1..] == target;
    assert H.DropSections(line) == H.DropSections(target) == target;
    assert H.BEGIN_PATCH[0] == '*' && H.END_PATCH[0] == '*';
  }

  lemma TrimPadded(target: string)
    requires Trim(target) == target && target != ""
    ensures Trim(" " + target) == target
  {
    assert IsSpace(target[0]) ==> |TrimLeft(target)| < |target|;
    assert |TrimRight(TrimLeft(target))| <= |TrimLeft(target)|;
    assert TrimLeft(target) == target;
    assert (" " + target)[1..] == target;
    assert TrimLeft(" " + target) == TrimLeft(target);
  }

  lemma UpdateLine(name: string)
    ensures KindOf(UPDATE_FILE + name) == UpdateHeader(name)
  {
    var line := UPDATE_FILE + name;
    assert line[..|UPDATE_FILE|] == UPDATE_FILE && line[|UPDATE_FILE|..] == name;
    assert line[4] == 'U' && H.BEGIN_PATCH[4] == 'B' && H.END_PATCH[4] == 'E';
  }

  /** The longer header names its file, too. */
  lemma UpdateRead(target: string)
    requires Trim(target) == target && target != ""
    ensures KindOf(UPDATE_FILE + (" " + target)) == FileHeader(target)
  {
    UpdateLine(" " + target);
    TrimPadded(target);
  }
}
