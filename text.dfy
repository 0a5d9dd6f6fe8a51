/**
 * String notions the repository and the controller rely on: the order in
 * which names are sorted, case-insensitive substring search, and the text of
 * diagnostic messages.
 */
module Text {
  import opened Entities

  // ---------------------------------------------------------------------
  // Name order: ordinal (code-point) lexicographic order, standing for the
  // collation the database sorts with.
  // ---------------------------------------------------------------------

  /** `a` sorts at or before `b`. */
  predicate NameLe(a: string, b: string)
    decreases |a|
  {
    a == [] || (b != [] && (a[0] < b[0] || (a[0] == b[0] && NameLe(a[1..], b[1..]))))
  }

  /** Any two names are comparable. */
  lemma {:induction false} NameLeTotal(a: string, b: string)
    ensures NameLe(a, b) || NameLe(b, a)
    decreases |a|
  {
    if a != [] && b != [] && a[0] == b[0] {
      NameLeTotal(a[1..], b[1..]);
    }
  }

  lemma {:induction false} NameLeTransitive(a: string, b: string, c: string)
    requires NameLe(a, b) && NameLe(b, c)
    ensures NameLe(a, c)
    decreases |a|
  {
    if a != [] && a[0] == b[0] && b[0] == c[0] {
      NameLeTransitive(a[1..], b[1..], c[1..]);
    }
  }

  /** Two names that sort at or before each other are the same name. */
  lemma {:induction false} NameLeAntisymmetric(a: string, b: string)
    requires NameLe(a, b) && NameLe(b, a)
    ensures a == b
    decreases |a|
  {
    if a != [] {
      NameLeAntisymmetric(a[1..], b[1..]);
      assert a == [a[0]] + a[1..] && b == [b[0]] + b[1..];
    }
  }

  // ---------------------------------------------------------------------
  // Case-insensitive search, standing for String.Contains with
  // StringComparison.OrdinalIgnoreCase (folding is limited to ASCII letters).
  // ---------------------------------------------------------------------

  /** The character with ASCII upper case folded to lower case. */
  function FoldChar(c: char): char {
    if 'A' <= c <= 'Z' then (c as int + 32) as char else c
  }

  /** `t` is a prefix of `s`, ignoring case. */
  predicate StartsWithIgnoreCase(s: string, t: string) {
    |t| <= |s| && forall i :: 0 <= i < |t| ==> FoldChar(s[i]) == FoldChar(t[i])
  }

  /** `t` occurs in `s`, ignoring case. */
  predicate ContainsIgnoreCase(s: string, t: string)
    decreases |s|
  {
    StartsWithIgnoreCase(s, t) || (s != [] && ContainsIgnoreCase(s[1..], t))
  }

  /** `ContainsIgnoreCase` holds exactly when `t` matches `s` at some position. */
  lemma {:induction false} ContainsIgnoreCaseAt(s: string, t: string)
    ensures ContainsIgnoreCase(s, t) <==>
            exists k :: 0 <= k <= |s| && StartsWithIgnoreCase(s[k..], t)
    decreases |s|
  {
    if k :| 0 <= k <= |s| && StartsWithIgnoreCase(s[k..], t) {
      if k == 0 {
        assert s[k..] == s;
      } else {
        ContainsIgnoreCaseAt(s[1..], t);
        assert s[1..][k - 1..] == s[k..];
      }
    }
    if ContainsIgnoreCase(s, t) {
      if StartsWithIgnoreCase(s, t) {
        assert s[0..] == s;
      } else {
        ContainsIgnoreCaseAt(s[1..], t);
        var k :| 0 <= k <= |s[1..]| && StartsWithIgnoreCase(s[1..][k..], t);
        assert s[1..][k..] == s[k + 1..];
      }
    }
  }

  /** Every name contains the empty string, so an empty filter keeps everything. */
  lemma ContainsEmpty(s: string)
    ensures ContainsIgnoreCase(s, "")
  {
  }

  // ---------------------------------------------------------------------
  // Exact substring search, used to state what diagnostics mention.
  // ---------------------------------------------------------------------

  /** `t` occurs in `s` exactly. */
  predicate Mentions(s: string, t: string)
    decreases |s|
  {
    t <= s || (s != [] && Mentions(s[1..], t))
  }

  /** A text occurs in any string built around it. */
  lemma {:induction false} MentionsSplice(a: string, t: string, b: string)
    ensures Mentions(a + t + b, t)
    decreases |a|
  {
    if a == [] {
      assert a + t + b == t + b;
      assert t <= t + b;
    } else {
      MentionsSplice(a[1..], t, b);
      assert (a + t + b)[1..] == a[1..] + t + b;
    }
  }

  // ---------------------------------------------------------------------
  // Rendering of identifiers in diagnostics: the 8-4-4-4-12 hexadecimal form.
  // ---------------------------------------------------------------------

  function HexDigit(d: nat): (c: char)
    requires d < 16
    ensures DigitValue(c) == d
  {
    if d < 10 then ('0' as int + d) as char else ('a' as int + d - 10) as char
  }

  /** The value of one lower-case hexadecimal digit (0 for any other character). */
  function DigitValue(c: char): nat {
    if '0' <= c <= '9' then c as int - '0' as int
    else if 'a' <= c <= 'f' then c as int - 'a' as int + 10
    else 0
  }

  function Pow16(n: nat): (r: nat)
    ensures r >= 1
  {
    if n == 0 then 1 else 16 * Pow16(n - 1)
  }

  lemma {:induction false} Pow16Add(a: nat, b: nat)
    ensures Pow16(a + b) == Pow16(a) * Pow16(b)
    decreases a
  {
    if a > 0 {
      Pow16Add(a - 1, b);
    }
  }

  /** The number a string of hexadecimal digits denotes, most significant first. */
  function HexNumber(s: string): nat
    decreases |s|
  {
    if |s| == 0 then 0 else 16 * HexNumber(s[..|s| - 1]) + DigitValue(s[|s| - 1])
  }

  /** The lowest `count` hexadecimal digits of `n`, most significant first. */
  function HexDigits(n: nat, count: nat): (r: string)
    ensures |r| == count
    decreases count
  {
    if count == 0 then "" else HexDigits(n / 16, count - 1) + [HexDigit(n % 16)]
  }

  /** A number below 16^count is given back by the digits it is written with. */
  lemma {:induction false} HexDigitsRoundTrip(n: nat, count: nat)
    requires n < Pow16(count)
    ensures HexNumber(HexDigits(n, count)) == n
    decreases count
  {
    if count > 0 {
      var s := HexDigits(n, count);
      assert s[..|s| - 1] == HexDigits(n / 16, count - 1);
      HexDigitsRoundTrip(n / 16, count - 1);
    }
  }

  /**
   * The "D" format of Guid.ToString: the 32 hexadecimal digits of the
   * identifier, most significant first, in groups of 8-4-4-4-12 joined by
   * hyphens.
   */
  function GuidText(g: Guid): (r: string)
    ensures |r| == 36
    ensures r[8] == '-' && r[13] == '-' && r[18] == '-' && r[23] == '-'
    ensures r[..8] + r[9..13] + r[14..18] + r[19..23] + r[24..] == HexDigits(g.bits, 32)
  {
    var h := HexDigits(g.bits, 32);
    GroupsRejoin(h);
    h[..8] + "-" + h[8..12] + "-" + h[12..16] + "-" + h[16..20] + "-" + h[20..]
  }

  /** Dropping the four hyphens from the grouped form gives the digits back. */
  lemma GroupsRejoin(h: string)
    requires |h| == 32
    ensures var r := h[..8] + "-" + h[8..12] + "-" + h[12..16] + "-" + h[16..20] + "-" + h[20..];
            r[..8] + r[9..13] + r[14..18] + r[19..23] + r[24..] == h
  {
    var r := h[..8] + "-" + h[8..12] + "-" + h[12..16] + "-" + h[16..20] + "-" + h[20..];
    assert r[..8] == h[..8] && r[9..13] == h[8..12] && r[14..18] == h[12..16];
    assert r[19..23] == h[16..20] && r[24..] == h[20..];
    assert h == h[..8] + h[8..12] + h[12..16] + h[16..20] + h[20..];
  }

  /** Every identifier is written with exactly 32 hexadecimal digits. */
  lemma GuidDigitsFit()
    ensures Pow16(32) == GuidBound
  {
    Pow16Add(4, 4);
    Pow16Add(8, 8);
    Pow16Add(16, 16);
    assert Pow16(4) == 0x1_0000;
  }

  /** Distinct identifiers are rendered as distinct texts. */
  lemma {:induction false} GuidTextInjective(g: Guid, h: Guid)
    ensures GuidText(g) == GuidText(h) ==> g == h
  {
    if GuidText(g) == GuidText(h) {
      GuidDigitsFit();
      assert HexDigits(g.bits, 32) == HexDigits(h.bits, 32);
      HexDigitsRoundTrip(g.bits, 32);
      HexDigitsRoundTrip(h.bits, 32);
    }
  }

}
