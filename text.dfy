/**
 The string primitives `handle_command` and its helpers rely on:
 `str::trim`, `str::to_lowercase`, `str::strip_prefix` and the two uses of
 `str::replace` with a single-character pattern.
 */
module Text {
  import opened Wrappers

  /** Rust's `char::is_whitespace`: the Unicode White_Space property. */
  predicate IsWhitespace(c: char) {
    || ('\t' <= c <= '\r')
    || c == ' '
    || c == '\U{85}'
    || c == '\U{A0}'
    || c == '\U{1680}'
    || ('\U{2000}' <= c <= '\U{200A}')
    || c == '\U{2028}'
    || c == '\U{2029}'
    || c == '\U{202F}'
    || c == '\U{205F}'
    || c == '\U{3000}'
  }

  /**
   Among ASCII characters exactly space and tab through carriage return are
   whitespace; the zero-width space is not.
   */
  lemma AsciiWhitespace(c: char)
    requires c < '\U{80}'
    ensures IsWhitespace(c) <==> c == ' ' || '\t' <= c <= '\r'
    ensures !IsWhitespace('\U{200B}')
  {
  }

  /** Every character of `s` at an index from `lo` up to `hi` is whitespace. */
  predicate WhitespaceBetween(s: string, lo: int, hi: int) {
    forall k :: lo <= k < hi && 0 <= k < |s| ==> IsWhitespace(s[k])
  }

  /** Neither the first nor the last character is whitespace. */
  predicate Trimmed(s: string) {
    s == [] || (!IsWhitespace(s[0]) && !IsWhitespace(s[|s| - 1]))
  }

  /** The length of the whitespace run that starts `s`. */
  function LeadingWhitespace(s: string): (n: nat)
    ensures n <= |s| && WhitespaceBetween(s, 0, n)
    ensures n == |s| || !IsWhitespace(s[n])
  {
    if |s| > 0 && IsWhitespace(s[0]) then
      var n := 1 + LeadingWhitespace(s[1..]);
      assert forall k :: 1 <= k < n ==> s[k] == s[1..][k - 1];
      n
    else 0
  }

  /** Where the whitespace run that ends `s` begins. */
  function TrailingWhitespaceStart(s: string): (m: nat)
    ensures m <= |s| && WhitespaceBetween(s, m, |s|)
    ensures m == 0 || !IsWhitespace(s[m - 1])
  {
    if |s| > 0 && IsWhitespace(s[|s| - 1]) then
      var m := TrailingWhitespaceStart(s[..|s| - 1]);
      assert forall k :: m <= k < |s| - 1 ==> s[k] == s[..|s| - 1][k];
      m
    else |s|
  }

  /** `str::trim`: the slice of `s` left once both whitespace runs are gone. */
  function Trim(s: string): (r: string)
    ensures Trimmed(r)
    ensures var i := LeadingWhitespace(s);
            && i + |r| <= |s| && r == s[i..i + |r|]
            && WhitespaceBetween(s, 0, i) && WhitespaceBetween(s, i + |r|, |s|)
  {
    var i := LeadingWhitespace(s);
    var j := TrailingWhitespaceStart(s);
    if i < j then s[i..j]
    else []
  }

  /** The leading run is determined by its contract. */
  lemma LeadingWhitespaceAt(s: string, i: nat)
    requires i <= |s| && WhitespaceBetween(s, 0, i)
    requires i == |s| || !IsWhitespace(s[i])
    ensures LeadingWhitespace(s) == i
  {
  }

  /** The start of the trailing run is determined by its contract. */
  lemma TrailingWhitespaceStartAt(s: string, j: nat)
    requires j <= |s| && WhitespaceBetween(s, j, |s|)
    requires j == 0 || !IsWhitespace(s[j - 1])
    ensures TrailingWhitespaceStart(s) == j
  {
  }

  /**
   Trim is determined by its contract: any trimmed slice of `s` with only
   whitespace around it is what `Trim` returns.
   */
  lemma TrimUnique(s: string, i: nat, t: string)
    requires i + |t| <= |s| && t == s[i..i + |t|]
    requires WhitespaceBetween(s, 0, i) && WhitespaceBetween(s, i + |t|, |s|)
    requires Trimmed(t)
    ensures Trim(s) == t
  {
    if t == [] {
      LeadingWhitespaceAt(s, |s|);
    } else {
      assert s[i] == t[0] && s[i + |t| - 1] == t[|t| - 1];
      LeadingWhitespaceAt(s, i);
      TrailingWhitespaceStartAt(s, i + |t|);
    }
  }

  /** A string without whitespace at either end is its own trim. */
  lemma TrimOfTrimmed(s: string)
    requires Trimmed(s)
    ensures Trim(s) == s
  {
    assert s[0..0 + |s|] == s;
    TrimUnique(s, 0, s);
  }

  /** Trimming twice is trimming once. */
  lemma TrimIdempotent(s: string)
    ensures Trim(Trim(s)) == Trim(s)
  {
    TrimOfTrimmed(Trim(s));
  }

  /** A whitespace character in front of the text does not change its trim. */
  lemma TrimSkipsLeadingWhitespace(c: char, s: string)
    requires IsWhitespace(c)
    ensures Trim([c] + s) == Trim(s)
  {
    var t := Trim(s);
    var i := LeadingWhitespace(s);
    var cs := [c] + s;
    assert forall k :: 1 <= k < |cs| ==> cs[k] == s[k - 1];
    assert cs[i + 1..i + 1 + |t|] == s[i..i + |t|];
    TrimUnique(cs, i + 1, t);
  }

  /** ASCII case mapping of `char::to_lowercase`. */
  function LowerChar(c: char): (r: char)
    ensures !('A' <= r <= 'Z')
    ensures IsWhitespace(r) == IsWhitespace(c)
    ensures c != r ==> 'A' <= c <= 'Z' && r as int == c as int + 32
  {
    if 'A' <= c <= 'Z' then (c as int + 32) as char else c
  }

  /** `str::to_lowercase`, character by character. */
  function Lower(s: string): (r: string)
    ensures |r| == |s|
    ensures forall k :: 0 <= k < |s| ==> r[k] == LowerChar(s[k])
  {
    if s == [] then [] else [LowerChar(s[0])] + Lower(s[1..])
  }

  /** Lowercasing twice is lowercasing once, and leaves no ASCII capital. */
  lemma LowerIdempotent(s: string)
    ensures Lower(Lower(s)) == Lower(s)
    ensures forall k :: 0 <= k < |s| ==> !('A' <= Lower(s)[k] <= 'Z')
  {
    var l := Lower(s);
    assert forall k :: 0 <= k < |l| ==> LowerChar(l[k]) == l[k];
  }

  /** Text without ASCII capitals is its own lowercase. */
  lemma LowerNoCapitals(s: string)
    requires forall k :: 0 <= k < |s| ==> !('A' <= s[k] <= 'Z')
    ensures Lower(s) == s
  {
  }

  /** Lowercasing keeps a trimmed string trimmed. */
  lemma LowerKeepsTrimmed(s: string)
    requires Trimmed(s)
    ensures Trimmed(Lower(s))
  {
  }

  /** `str::strip_prefix`: the rest of `s` when it starts with `p`. */
  function StripPrefix(s: string, p: string): (r: Option<string>)
    ensures r.Some? <==> p <= s
    ensures r.Some? ==> p + r.value == s
  {
    if p <= s then Some(s[|p|..]) else None
  }

  /** `str::replace(' ', "")`: `s` with every space removed. */
  function RemoveSpaces(s: string): (r: string)
    ensures ' ' !in r
    ensures multiset(r) == multiset(s)[' ' := 0]
  {
    if s == [] then []
    else
      var rest := RemoveSpaces(s[1..]);
      assert s == [s[0]] + s[1..];
      if s[0] == ' ' then rest else [s[0]] + rest
  }

  /** Removal works piece by piece, so the other characters keep their order. */
  lemma {:induction false} RemoveSpacesConcat(a: string, b: string)
    ensures RemoveSpaces(a + b) == RemoveSpaces(a) + RemoveSpaces(b)
  {
    if a == [] {
      assert a + b == b;
    } else {
      assert (a + b)[0] == a[0];
      assert (a + b)[1..] == a[1..] + b;
      RemoveSpacesConcat(a[1..], b);
    }
  }

  /** A string without spaces is left as it is. */
  lemma {:induction false} RemoveSpacesNoop(s: string)
    requires ' ' !in s
    ensures RemoveSpaces(s) == s
  {
    if s != [] {
      assert ' ' !in s[1..] by { assert forall k :: 0 <= k < |s| - 1 ==> s[1..][k] == s[k + 1]; }
      RemoveSpacesNoop(s[1..]);
    }
  }

  /** Two words separated by a space become one word. */
  lemma RemoveSpacesJoin(a: string, b: string)
    requires ' ' !in a && ' ' !in b
    ensures RemoveSpaces(a + " " + b) == a + b
  {
    RemoveSpacesNoop(a);
    RemoveSpacesNoop(b);
    assert RemoveSpaces(" ") == [];
    RemoveSpacesConcat(a, " ");
    assert RemoveSpaces(a + " ") == a;
    RemoveSpacesConcat(a + " ", b);
  }

  /** `str::replace(from, to)` for single characters `from` and `to`. */
  function Replace(s: string, from: char, to: char): (r: string)
    ensures |r| == |s|
    ensures forall k :: 0 <= k < |s| ==> r[k] == if s[k] == from then to else s[k]
  {
    if s == [] then [] else [if s[0] == from then to else s[0]] + Replace(s[1..], from, to)
  }

  /** After replacing `from` by another character, `from` no longer occurs. */
  lemma ReplaceRemoves(s: string, from: char, to: char)
    requires from != to
    ensures from !in Replace(s, from, to)
  {
    var r := Replace(s, from, to);
    assert forall k :: 0 <= k < |r| ==> r[k] != from;
  }

  /** Replacing back undoes the replacement when `to` did not already occur. */
  lemma ReplaceInverse(s: string, from: char, to: char)
    requires to !in s
    ensures Replace(Replace(s, from, to), to, from) == s
  {
    var r := Replace(Replace(s, from, to), to, from);
    forall k | 0 <= k < |s| ensures r[k] == s[k] {
      assert s[k] != to;
    }
  }
}
