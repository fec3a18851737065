/** White space and trimming as Python's `str` has them. */
module Text {
  predicate IsSpace(c: char) {
    var n := c as int;
    || 0x09 <= n <= 0x0D || 0x1C <= n <= 0x20 || n == 0x85 || n == 0xA0 || n == 0x1680
    || 0x2000 <= n <= 0x200A || n == 0x2028 || n == 0x2029 || n == 0x202F || n == 0x205F || n == 0x3000
  }

  /** `s.lstrip()` */
  function TrimLeft(s: string): (t: string)
    ensures |t| <= |s| && (t != "" ==> !IsSpace(t[0]))
  {
    if s != "" && IsSpace(s[0]) then TrimLeft(s[1..]) else s
  }

  /** `s.rstrip()` */
  function TrimRight(s: string): (t: string)
    ensures t <= s
    ensures t != "" ==> !IsSpace(t[|t| - 1])
  {
    if s != "" && IsSpace(s[|s| - 1]) then TrimRight(s[..|s| - 1]) else s
  }

  /** `s.strip()` */
  function Trim(s: string): string {
    TrimRight(TrimLeft(s))
  }

  predicate IsBlank(s: string) {
    forall c | c in s :: IsSpace(c)
  }

  predicate HasNoSpace(s: string) {
    forall c | c in s :: !IsSpace(c)
  }

  lemma TrimOfSpaceless(s: string)
    requires HasNoSpace(s)
    ensures Trim(s) == s
  {
  }

  // ---------------------------------------------------------------------------------------------
  // What trimming does

  /** No white space at either end. */
  predicate Tight(s: string) {
    s != "" ==> !IsSpace(s[0]) && !IsSpace(s[|s| - 1])
  }

  lemma {:induction false} TrimLeftShape(s: string) returns (l: string)
    ensures s == l + TrimLeft(s) && IsBlank(l)
  {
    l := "";
    if s != "" && IsSpace(s[0]) {
      var rest := TrimLeftShape(s[1..]);
      l := [s[0]] + rest;
      assert s == [s[0]] + s[1..];
    }
  }

  lemma {:induction false} TrimRightShape(s: string) returns (r: string)
    ensures s == TrimRight(s) + r && IsBlank(r)
  {
    r := "";
    if s != "" && IsSpace(s[|s| - 1]) {
      var rest := TrimRightShape(s[..|s| - 1]);
      r := rest + [s[|s| - 1]];
      assert s == s[..|s| - 1] + [s[|s| - 1]];
    }
  }

  /** A text is what is left of it between white space. */
  lemma TrimShape(s: string) returns (l: string, r: string)
    ensures s == l + Trim(s) + r && IsBlank(l) && IsBlank(r) && Tight(Trim(s))
  {
    l := TrimLeftShape(s);
    r := TrimRightShape(TrimLeft(s));
    assert Trim(s) != "" ==> Trim(s)[0] == TrimLeft(s)[0];
  }

  lemma {:induction false} TrimLeftIs(l: string, t: string)
    requires IsBlank(l) && (t != "" ==> !IsSpace(t[0]))
    ensures TrimLeft(l + t) == t
  {
    if l == "" {
      assert l + t == t;
    } else {
      assert l[0] in l && (l + t)[1..] == l[1..] + t;
      TrimLeftIs(l[1..], t);
    }
  }

  lemma {:induction false} TrimRightIs(t: string, r: string)
    requires IsBlank(r) && (t != "" ==> !IsSpace(t[|t| - 1]))
    ensures TrimRight(t + r) == t
  {
    if r == "" {
      assert t + r == t;
    } else {
      assert r[|r| - 1] in r && (t + r)[..|t + r| - 1] == t + r[..|r| - 1];
      TrimRightIs(t, r[..|r| - 1]);
    }
  }

  /** Trimming takes off all white space at both ends, and nothing else. */
  lemma TrimIs(l: string, body: string, r: string)
    requires IsBlank(l) && IsBlank(r) && Tight(body)
    ensures Trim(l + body + r) == body
  {
    if body == "" {
      assert l + body + r == (l + r) + "";
      assert IsBlank(l + r);
      TrimLeftIs(l + r, "");
    } else {
      assert l + body + r == l + (body + r);
      TrimLeftIs(l, body + r);
      TrimRightIs(body, r);
    }
  }

  lemma BlankIff(s: string)
    ensures Trim(s) == "" <==> IsBlank(s)
  {
    var l, r := TrimShape(s);
    if IsBlank(s) {
      TrimIs(s, "", "");
      assert s + "" + "" == s;
    }
    assert Trim(s) == "" ==> s == l + r;
  }

  lemma TrimMore(s: string, e: string)
    requires IsBlank(e)
    ensures Trim(s + e) == Trim(s)
  {
    var l, r := TrimShape(s);
    assert s + e == l + Trim(s) + (r + e);
    assert IsBlank(r + e);
    TrimIs(l, Trim(s), r + e);
  }

  lemma BlankMore(s: string, e: string)
    requires IsBlank(e)
    ensures IsBlank(s + e) <==> IsBlank(s)
  {
    assert forall c :: c in s + e <==> c in s || c in e;
  }

  /** A word that ends with no white space is not made by adding white space. */
  lemma PrefixMore(word: string, s: string, e: string)
    requires word != "" && !IsSpace(word[|word| - 1]) && IsBlank(e)
    ensures word <= s + e <==> word <= s
    ensures word <= s ==> (s + e)[|word|..] == s[|word|..] + e
  {
    assert |s| < |word| <= |s + e| ==> (s + e)[|word| - 1] in e;
  }

  /** White space up to `k`, and then the word. */
  predicate StartsAt(text: string, k: nat, word: string) {
    k + |word| <= |text| && IsBlank(text[..k]) && text[k..k + |word|] == word
  }

  lemma StartIff(text: string, word: string)
    requires word != "" && !IsSpace(word[0])
    ensures word <= TrimLeft(text) <==> exists k: nat :: StartsAt(text, k, word)
  {
    var l := TrimLeftShape(text);
    if word <= TrimLeft(text) {
      assert text[..|l|] == l && text[|l|..] == TrimLeft(text);
      assert StartsAt(text, |l|, word);
    }
    forall k: nat | StartsAt(text, k, word) ensures word <= TrimLeft(text) {
      assert text == text[..k] + text[k..] && text[k..][0] == word[0];
      TrimLeftIs(text[..k], text[k..]);
      assert text[k..][..|word|] == word;
    }
  }
}
