/**
 * The small part of JavaScript's value semantics that the components rely on:
 * truthiness, string conversion of integers, `Number()` on digit strings,
 * `String.prototype.split` on one character, and `replace` with a literal
 * pattern (first occurrence) or a global regular expression of literal
 * characters (every non-overlapping occurrence, left to right).
 */
module Js {

  datatype Option<+T> = None | Some(value: T)

  /** A JavaScript value as the components see it. Numbers are integers here. */
  datatype JsValue = Undefined | Null | Str(s: string) | Num(n: int)

  /** JavaScript truthiness: '' , 0, null and undefined are falsy. */
  predicate Truthy(v: JsValue)
  {
    match v
    case Undefined => false
    case Null => false
    case Str(s) => s != ""
    case Num(n) => n != 0
  }

  /** The test `!v && typeof v !== 'number'`: a falsy value that is not a number. */
  predicate IsMissing(v: JsValue)
  {
    !Truthy(v) && !v.Num?
  }

  lemma NumberNeverMissing(n: int)
    ensures !IsMissing(Num(n))
  {
  }

  lemma MissingValues(v: JsValue)
    ensures IsMissing(v) <==> v == Undefined || v == Null || v == Str("")
  {
  }

  // ---------------------------------------------------------------------------
  // Decimal digits

  predicate IsDigit(c: char)
  {
    '0' <= c <= '9'
  }

  predicate IsDigits(s: string)
  {
    forall i :: 0 <= i < |s| ==> IsDigit(s[i])
  }

  function DigitChar(d: nat): (c: char)
    requires d < 10
    ensures IsDigit(c) && c as int - '0' as int == d
  {
    ('0' as int + d) as char
  }

  function DigitValue(c: char): (d: nat)
    requires IsDigit(c)
    ensures d < 10 && DigitChar(d) == c
  {
    c as int - '0' as int
  }

  /** `String(n)` for a non-negative integer: its shortest decimal numeral. */
  function NatToString(n: nat): (s: string)
    ensures |s| >= 1 && IsDigits(s)
    ensures n >= 10 ==> s[0] != '0'
    ensures n < 10 ==> s == [DigitChar(n)]
    ensures 10 <= n < 100 ==> |s| == 2
  {
    if n < 10 then [DigitChar(n)] else NatToString(n / 10) + [DigitChar(n % 10)]
  }

  /** `String(n)` for any integer. */
  function IntToString(n: int): (s: string)
    ensures n >= 0 ==> s == NatToString(n)
    ensures n < 0 ==> s == "-" + NatToString(-n)
  {
    if n < 0 then "-" + NatToString(-n) else NatToString(n)
  }

  /** `Number(s)` for a string of decimal digits (leading zeros allowed). */
  function ParseDecimal(s: string): nat
    requires IsDigits(s)
  {
    if s == [] then 0 else ParseDecimal(s[..|s| - 1]) * 10 + DigitValue(s[|s| - 1])
  }

  /** The value of a two-digit string. */
  lemma TwoDigitValue(s: string)
    requires IsDigits(s) && |s| == 2
    ensures ParseDecimal(s) == DigitValue(s[0]) * 10 + DigitValue(s[1])
  {
    var init := s[..1];
    assert init == [s[0]] && init[..0] == [];
    assert ParseDecimal(init) == ParseDecimal(init[..0]) * 10 + DigitValue(init[0]);
    assert ParseDecimal(s) == ParseDecimal(init) * 10 + DigitValue(s[1]);
  }

  /** Reading back the numeral that `String(n)` writes gives `n`. */
  lemma {:induction false} ParseNatToString(n: nat)
    ensures ParseDecimal(NatToString(n)) == n
  {
    if n >= 10 {
      var s := NatToString(n);
      assert s[..|s| - 1] == NatToString(n / 10);
      ParseNatToString(n / 10);
    }
  }

  /** A leading '0' does not change the value of a digit string. */
  lemma {:induction false} ParseLeadingZero(s: string)
    requires IsDigits(s)
    ensures IsDigits("0" + s) && ParseDecimal("0" + s) == ParseDecimal(s)
  {
    if s != [] {
      var t := "0" + s;
      assert t[..|t| - 1] == "0" + s[..|s| - 1];
      ParseLeadingZero(s[..|s| - 1]);
    }
  }

  /** Appending digit `d` to the numeral of `q` and dividing by ten undoes it. */
  lemma AppendDigitDivMod(q: nat, d: nat)
    requires d < 10
    ensures (q * 10 + d) / 10 == q && (q * 10 + d) % 10 == d
  {
  }

  // ---------------------------------------------------------------------------
  // Splitting on one character

  /** `s.split(c)`: the pieces between occurrences of `c`; never empty. */
  function Split(s: string, c: char): (pieces: seq<string>)
    ensures |pieces| >= 1
    ensures c !in s ==> pieces == [s]
  {
    if s == [] then [""]
    else
      var rest := Split(s[1..], c);
      assert [s[0]] + s[1..] == s;
      if s[0] == c then [""] + rest else [[s[0]] + rest[0]] + rest[1..]
  }

  /** `pieces.join(c)`. */
  function Join(pieces: seq<string>, c: char): string
    requires |pieces| >= 1
  {
    if |pieces| == 1 then pieces[0] else pieces[0] + [c] + Join(pieces[1..], c)
  }

  /** Splitting loses nothing: joining the pieces gives the string back, and
      no piece contains the separator. */
  lemma {:induction false} SplitJoin(s: string, c: char)
    ensures Join(Split(s, c), c) == s
    ensures forall i :: 0 <= i < |Split(s, c)| ==> c !in Split(s, c)[i]
  {
    if s != [] {
      var rest := Split(s[1..], c);
      SplitJoin(s[1..], c);
      if s[0] == c {
        assert Split(s, c)[1..] == rest;
      } else {
        var pieces := Split(s, c);
        if |rest| == 1 {
          assert pieces == [[s[0]] + rest[0]];
        } else {
          assert pieces[1..] == rest[1..];
          assert Join(rest, c) == rest[0] + [c] + Join(rest[1..], c);
        }
        assert forall i :: 1 <= i < |pieces| ==> pieces[i] == rest[i];
      }
    }
  }

  /** A separator right after a piece without one starts a new piece. */
  lemma {:induction false} SplitConcat(a: string, rest: string, c: char)
    requires c !in a
    ensures Split(a + [c] + rest, c) == [a] + Split(rest, c)
  {
    var s := a + [c] + rest;
    if a == [] {
      assert s[1..] == rest;
    } else {
      assert s[1..] == a[1..] + [c] + rest;
      SplitConcat(a[1..], rest, c);
      assert [a[0]] + a[1..] == a;
    }
  }

  /** Splitting a join of separator-free pieces gives the pieces back. */
  lemma {:induction false} JoinSplit(pieces: seq<string>, c: char)
    requires |pieces| >= 1
    requires forall i :: 0 <= i < |pieces| ==> c !in pieces[i]
    ensures Split(Join(pieces, c), c) == pieces
  {
    if |pieces| > 1 {
      JoinSplit(pieces[1..], c);
      SplitConcat(pieces[0], Join(pieces[1..], c), c);
      assert [pieces[0]] + pieces[1..] == pieces;
    }
  }

  /** The first piece of `s.split(c)` is the text before the first `c`. */
  lemma {:induction false} SplitFirst(s: string, c: char, k: nat)
    requires k <= |s| && c !in s[..k] && (k == |s| || s[k] == c)
    ensures Split(s, c)[0] == s[..k]
  {
    if k > 0 {
      assert s[1..][..k - 1] == s[..k][1..];
      SplitFirst(s[1..], c, k - 1);
    }
  }

  // ---------------------------------------------------------------------------
  // Searching and replacing literal text

  predicate OccursAt(s: string, pat: string, i: nat)
  {
    i + |pat| <= |s| && s[i..i + |pat|] == pat
  }

  /** `s.indexOf(pat)`: the first position where `pat` occurs, or -1. */
  function IndexOf(s: string, pat: string): (r: int)
    requires pat != []
    ensures -1 <= r <= |s|
    ensures r == -1 <==> forall i :: 0 <= i <= |s| ==> !OccursAt(s, pat, i)
    ensures r >= 0 ==> OccursAt(s, pat, r) && forall i :: 0 <= i < r ==> !OccursAt(s, pat, i)
    decreases |s|
  {
    if |s| < |pat| then -1
    else if s[..|pat|] == pat then assert OccursAt(s, pat, 0); 0
    else
      var k := IndexOf(s[1..], pat);
      assert !OccursAt(s, pat, 0);
      assert forall i :: 1 <= i <= |s| ==> (OccursAt(s, pat, i) <==> OccursAt(s[1..], pat, i - 1));
      if k == -1 then -1 else assert OccursAt(s[1..], pat, k) && OccursAt(s, pat, k + 1); k + 1
  }

  /** `s.replace(pat, rep)` with a string pattern: only the first occurrence. */
  function ReplaceFirst(s: string, pat: string, rep: string): string
    requires pat != []
    decreases |s|
  {
    if |s| < |pat| then s
    else if s[..|pat|] == pat then rep + s[|pat|..]
    else [s[0]] + ReplaceFirst(s[1..], pat, rep)
  }

  /** `ReplaceFirst` splices `rep` in at `IndexOf` and leaves the string alone
      when the pattern does not occur. */
  lemma ReplaceFirstAtIndexOf(s: string, pat: string, rep: string)
    requires pat != []
    ensures IndexOf(s, pat) == -1 ==> ReplaceFirst(s, pat, rep) == s
    ensures IndexOf(s, pat) >= 0 ==>
      var k := IndexOf(s, pat);
      ReplaceFirst(s, pat, rep) == s[..k] + rep + s[k + |pat|..]
  {
    var k := IndexOf(s, pat);
    if k == -1 {
      ReplaceFirstAbsent(s, pat, rep);
    } else {
      ReplaceFirstAt(s, pat, rep, k);
    }
  }

  /** Without an occurrence, `replace` changes nothing. */
  lemma {:induction false} ReplaceFirstAbsent(s: string, pat: string, rep: string)
    requires pat != []
    requires forall i :: 0 <= i <= |s| ==> !OccursAt(s, pat, i)
    ensures ReplaceFirst(s, pat, rep) == s
    decreases |s|
  {
    if |s| >= |pat| {
      assert !OccursAt(s, pat, 0);
      forall i | 0 <= i <= |s[1..]|
        ensures !OccursAt(s[1..], pat, i)
      {
        assert !OccursAt(s, pat, i + 1);
        assert i + |pat| <= |s[1..]| ==> s[1..][i..i + |pat|] == s[i + 1..i + 1 + |pat|];
      }
      ReplaceFirstAbsent(s[1..], pat, rep);
      assert [s[0]] + s[1..] == s;
    }
  }

  /** At the first occurrence `k`, `replace` splices `rep` in. */
  lemma {:induction false} ReplaceFirstAt(s: string, pat: string, rep: string, k: nat)
    requires pat != [] && OccursAt(s, pat, k)
    requires forall i :: 0 <= i < k ==> !OccursAt(s, pat, i)
    ensures ReplaceFirst(s, pat, rep) == s[..k] + rep + s[k + |pat|..]
    decreases k
  {
    if k == 0 {
      assert s[..|pat|] == pat;
      assert s[..0] + rep + s[|pat|..] == rep + s[|pat|..];
    } else {
      assert !OccursAt(s, pat, 0);
      var t := s[1..];
      assert t[k - 1..k - 1 + |pat|] == s[k..k + |pat|];
      forall i | 0 <= i < k - 1
        ensures !OccursAt(t, pat, i)
      {
        assert !OccursAt(s, pat, i + 1);
        assert t[i..i + |pat|] == s[i + 1..i + 1 + |pat|];
      }
      ReplaceFirstAt(t, pat, rep, k - 1);
      assert ReplaceFirst(s, pat, rep) == [s[0]] + ReplaceFirst(t, pat, rep);
      SpliceStep(s, k - 1, |pat|, rep);
    }
  }

  /** Splicing into the rest and putting the first character back is
      splicing one position further on. */
  lemma SpliceStep(s: string, k: nat, n: nat, rep: string)
    requires 1 + k + n <= |s|
    ensures [s[0]] + (s[1..][..k] + rep + s[1..][k + n..]) == s[..k + 1] + rep + s[k + 1 + n..]
  {
    assert s[..k + 1] == [s[0]] + s[1..][..k];
    assert s[k + 1 + n..] == s[1..][k + n..];
  }

  /** `s.replace(new RegExp(pat, 'g'), rep)` for a pattern of literal
      characters: every non-overlapping occurrence, scanning left to right. */
  function ReplaceAll(s: string, pat: string, rep: string): string
    requires pat != []
    decreases |s|
  {
    if |s| < |pat| then s
    else if s[..|pat|] == pat then rep + ReplaceAll(s[|pat|..], pat, rep)
    else [s[0]] + ReplaceAll(s[1..], pat, rep)
  }

  /** A replacement no longer than the pattern never lengthens the text. */
  lemma {:induction false} ReplaceAllNoLonger(s: string, pat: string, rep: string)
    requires pat != [] && |rep| <= |pat|
    ensures |ReplaceAll(s, pat, rep)| <= |s|
    decreases |s|
  {
    if |s| >= |pat| {
      if s[..|pat|] == pat {
        ReplaceAllNoLonger(s[|pat|..], pat, rep);
      } else {
        ReplaceAllNoLonger(s[1..], pat, rep);
      }
    }
  }

  /** An occurrence at the front is replaced and the scan goes on after it. */
  lemma ReplaceAllMatch(pat: string, rest: string, rep: string)
    requires pat != []
    ensures ReplaceAll(pat + rest, pat, rep) == rep + ReplaceAll(rest, pat, rep)
  {
    assert (pat + rest)[..|pat|] == pat;
    assert (pat + rest)[|pat|..] == rest;
  }

  /** A character that does not start an occurrence is kept. */
  lemma ReplaceAllSkip(ch: char, rest: string, pat: string, rep: string)
    requires pat != []
    requires !OccursAt([ch] + rest, pat, 0)
    ensures ReplaceAll([ch] + rest, pat, rep) == [ch] + ReplaceAll(rest, pat, rep)
  {
    var s := [ch] + rest;
    assert s[1..] == rest;
    if |s| < |pat| {
      assert ReplaceAll(rest, pat, rep) == rest;
    } else {
      assert s[..|pat|] != pat;
    }
  }

  /** A pattern cannot occur where its first character does not. */
  lemma FirstCharMismatch(s: string, pat: string)
    requires s != [] && pat != [] && s[0] != pat[0]
    ensures !OccursAt(s, pat, 0)
  {
    if |pat| <= |s| {
      assert s[..|pat|][0] == s[0];
    }
  }

  /** A prefix that holds no character of the pattern is kept as it is. */
  lemma {:induction false} SkipPrefix(prefix: string, rest: string, pat: string, rep: string)
    requires pat != [] && pat[0] !in prefix
    ensures ReplaceAll(prefix + rest, pat, rep) == prefix + ReplaceAll(rest, pat, rep)
  {
    if prefix != [] {
      assert prefix + rest == [prefix[0]] + (prefix[1..] + rest);
      FirstCharMismatch([prefix[0]] + (prefix[1..] + rest), pat);
      ReplaceAllSkip(prefix[0], prefix[1..] + rest, pat, rep);
      SkipPrefix(prefix[1..], rest, pat, rep);
      assert [prefix[0]] + (prefix[1..] + ReplaceAll(rest, pat, rep)) == prefix + ReplaceAll(rest, pat, rep);
    } else {
      assert prefix + rest == rest;
    }
  }

  /** Text without the pattern's first character is left as it is. */
  lemma PatternAbsent(s: string, pat: string, rep: string)
    requires pat != [] && pat[0] !in s
    ensures ReplaceAll(s, pat, rep) == s
  {
    SkipPrefix(s, "", pat, rep);
    assert s + "" == s;
  }

  /** Text in which the pattern does not occur is left as it is. */
  lemma {:induction false} ReplaceAllAbsent(s: string, pat: string, rep: string)
    requires pat != []
    requires forall i :: 0 <= i <= |s| ==> !OccursAt(s, pat, i)
    ensures ReplaceAll(s, pat, rep) == s
    decreases |s|
  {
    if |s| >= |pat| {
      assert !OccursAt(s, pat, 0);
      assert forall i :: 0 <= i <= |s| - 1 ==> OccursAt(s[1..], pat, i) ==> OccursAt(s, pat, i + 1);
      ReplaceAllAbsent(s[1..], pat, rep);
    }
  }

  // ---------------------------------------------------------------------------
  // Ember string helpers

  /** Ember's `capitalize`: the first character upper-cased. Only 'a'..'z'
      are mapped; `toUpperCase` on other letters (accented or non-Latin) is
      not modelled, which does not matter for the lower-case ASCII row names
      it is applied to. */
  function Capitalize(s: string): (r: string)
    ensures |r| == |s| && (s != [] ==> r[1..] == s[1..])
  {
    if s == [] then s
    else if 'a' <= s[0] <= 'z' then [(s[0] as int - 32) as char] + s[1..]
    else s
  }

  /** JavaScript's string conversion, as used by `+` on a string. */
  function ToJsString(v: JsValue): (r: string)
    ensures Truthy(v) ==> r != ""
  {
    match v
    case Undefined => "undefined"
    case Null => "null"
    case Str(s) => s
    case Num(n) => IntToString(n)
  }
}
