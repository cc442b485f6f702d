/** The .NET string operations the core relies on, on `seq<char>`:
    `char.IsWhiteSpace`, `string.IsNullOrWhiteSpace`, `Contains` (ordinal and
    OrdinalIgnoreCase), `Equals(…, OrdinalIgnoreCase)` and an ordinal order
    used as the sort order of string keys. Case folding covers ASCII only. */
module Text {

  /** `char.IsWhiteSpace`: the Unicode space separators, the line and paragraph
      separators, U+0009..U+000D and U+0085. */
  predicate IsWhiteSpace(c: char) {
    c == ' ' || ('\t' <= c <= '\r') || c == '\U{85}' || c == '\U{A0}' || c == '\U{1680}'
    || ('\U{2000}' <= c <= '\U{200A}') || c == '\U{2028}' || c == '\U{2029}'
    || c == '\U{202F}' || c == '\U{205F}' || c == '\U{3000}'
  }

  /** `string.IsNullOrWhiteSpace` on a non-null string. */
  predicate IsBlank(s: string) {
    forall i :: 0 <= i < |s| ==> IsWhiteSpace(s[i])
  }

  /** Ordinal upper-casing restricted to ASCII letters. */
  function FoldChar(c: char): (r: char)
    ensures 'a' <= c <= 'z' ==> 'A' <= r <= 'Z' && r as int == c as int - 32
    ensures !('a' <= c <= 'z') ==> r == c
  {
    if 'a' <= c <= 'z' then (c as int - 32) as char else c
  }

  function Fold(s: string): (r: string)
    ensures |r| == |s|
  {
    seq(|s|, i requires 0 <= i < |s| => FoldChar(s[i]))
  }

  /** `a.Equals(b, StringComparison.OrdinalIgnoreCase)`. */
  predicate EqualsIgnoreCase(a: string, b: string) {
    Fold(a) == Fold(b)
  }

  lemma {:induction false} EqualsIgnoreCaseSameLength(a: string, b: string)
    requires EqualsIgnoreCase(a, b)
    ensures |a| == |b|
  {
    assert |Fold(a)| == |Fold(b)|;
  }

  /** `needle` occurs in `hay` starting at position `i`. */
  predicate OccursAt(hay: string, needle: string, i: int) {
    0 <= i && i + |needle| <= |hay| && hay[i..i + |needle|] == needle
  }

  /** `hay.Contains(needle)` with ordinal comparison. */
  function Contains(hay: string, needle: string): (r: bool)
    ensures r <==> exists i :: OccursAt(hay, needle, i)
    decreases |hay|
  {
    if |needle| > |hay| then
      false
    else if hay[..|needle|] == needle then
      assert OccursAt(hay, needle, 0);
      true
    else
      var r := Contains(hay[1..], needle);
      if r then
        var i :| OccursAt(hay[1..], needle, i);
        assert hay[1..][i..i + |needle|] == hay[i + 1..i + 1 + |needle|];
        assert OccursAt(hay, needle, i + 1);
        r
      else
        assert !OccursAt(hay, needle, 0);
        forall i | 1 <= i && OccursAt(hay, needle, i) ensures OccursAt(hay[1..], needle, i - 1) {
          assert hay[1..][i - 1..i - 1 + |needle|] == hay[i..i + |needle|];
        }
        r
  }

  /** `hay.Contains(needle, StringComparison.OrdinalIgnoreCase)`. */
  predicate ContainsIgnoreCase(hay: string, needle: string) {
    Contains(Fold(hay), Fold(needle))
  }

  /** An ordinal match is also a case-insensitive one. */
  lemma {:induction false} ContainsImpliesContainsIgnoreCase(hay: string, needle: string)
    requires Contains(hay, needle)
    ensures ContainsIgnoreCase(hay, needle)
  {
    var i :| OccursAt(hay, needle, i);
    assert Fold(hay)[i..i + |needle|] == Fold(needle) by {
      forall j | 0 <= j < |needle| ensures Fold(hay)[i..i + |needle|][j] == Fold(needle)[j] {
        assert hay[i..i + |needle|][j] == needle[j];
      }
    }
    assert OccursAt(Fold(hay), Fold(needle), i);
  }

  /** Ordinal lexicographic order: `a` sorts no later than `b`. */
  predicate StrLe(a: string, b: string)
    decreases |a|
  {
    if a == [] then true
    else if b == [] then false
    else if a[0] < b[0] then true
    else if a[0] > b[0] then false
    else StrLe(a[1..], b[1..])
  }

  lemma {:induction false} StrLeRefl(a: string)
    ensures StrLe(a, a)
    decreases |a|
  {
    if a != [] {
      StrLeRefl(a[1..]);
    }
  }

  lemma {:induction false} StrLeTotal(a: string, b: string)
    ensures StrLe(a, b) || StrLe(b, a)
    decreases |a|
  {
    if a != [] && b != [] && a[0] == b[0] {
      StrLeTotal(a[1..], b[1..]);
    }
  }

  lemma {:induction false} StrLeAntisymmetric(a: string, b: string)
    requires StrLe(a, b) && StrLe(b, a)
    ensures a == b
    decreases |a|
  {
    if a != [] {
      StrLeAntisymmetric(a[1..], b[1..]);
      assert a == [a[0]] + a[1..] && b == [b[0]] + b[1..];
    }
  }

  lemma {:induction false} StrLeTransitive(a: string, b: string, c: string)
    requires StrLe(a, b) && StrLe(b, c)
    ensures StrLe(a, c)
    decreases |a|
  {
    if a != [] && b != [] && c != [] && a[0] == b[0] == c[0] {
      StrLeTransitive(a[1..], b[1..], c[1..]);
    }
  }
}
