/** The pieces of JavaScript string semantics the narrator's logic relies on:
    what `\s` matches and `trim` removes, `indexOf`, `lastIndexOf`, `split`,
    and decimal rendering of a number inside a template literal. */
module Strings {

  /** JavaScript's WhiteSpace and LineTerminator code points: exactly what the
      regular-expression class `\s` matches and what `String.prototype.trim` removes. */
  predicate IsSpace(c: char) {
    var n := c as int;
    (0x09 <= n <= 0x0D) || n == 0x20 || n == 0xA0 || n == 0x1680
    || (0x2000 <= n <= 0x200A) || n == 0x2028 || n == 0x2029 || n == 0x202F
    || n == 0x205F || n == 0x3000 || n == 0xFEFF
  }

  /** The characters that `.` in a regular expression does not match. */
  predicate IsLineTerminator(c: char) {
    c == '\n' || c == '\r' || c as int == 0x2028 || c as int == 0x2029
  }

  /** `!s.trim()` in JavaScript: the string is empty or all white space. */
  predicate IsBlank(s: string) {
    forall i | 0 <= i < |s| :: IsSpace(s[i])
  }

  lemma BlankConcat(a: string, b: string)
    ensures IsBlank(a + b) <==> IsBlank(a) && IsBlank(b)
  {
    if IsBlank(a) && IsBlank(b) {
      forall i | 0 <= i < |a + b| ensures IsSpace((a + b)[i]) {
        if i < |a| { assert (a + b)[i] == a[i]; } else { assert (a + b)[i] == b[i - |a|]; }
      }
    }
    if IsBlank(a + b) {
      forall i | 0 <= i < |a| ensures IsSpace(a[i]) { assert a[i] == (a + b)[i]; }
      forall i | 0 <= i < |b| ensures IsSpace(b[i]) { assert b[i] == (a + b)[|a| + i]; }
    }
  }

  /** The number of leading white-space characters `trimStart` removes. */
  function Lead(s: string): (k: nat)
    ensures k <= |s| && IsBlank(s[..k])
    ensures k < |s| ==> !IsSpace(s[k])
  {
    if |s| > 0 && IsSpace(s[0]) then
      var k := 1 + Lead(s[1..]);
      assert s[..k] == [s[0]] + s[1..][..k - 1];
      BlankConcat([s[0]], s[1..][..k - 1]);
      k
    else 0
  }

  /** `s.trimStart()`: the suffix of `s` left after its leading white space. */
  function TrimStart(s: string): string {
    s[Lead(s)..]
  }

  /** `s.trimEnd()`: the prefix of `s` left before its trailing white space. */
  function TrimEnd(s: string): (r: string)
    ensures |r| <= |s| && r == s[..|r|]
    ensures IsBlank(s[|r|..])
    ensures r == [] || !IsSpace(r[|r| - 1])
  {
    if |s| > 0 && IsSpace(s[|s| - 1]) then
      var r := TrimEnd(s[..|s| - 1]);
      assert s[|r|..] == s[..|s| - 1][|r|..] + [s[|s| - 1]];
      BlankConcat(s[..|s| - 1][|r|..], [s[|s| - 1]]);
      r
    else s
  }

  /** `s.trim()`: the result is empty exactly when `s` is blank, and neither
      starts nor ends with white space. */
  function Trim(s: string): (r: string)
    ensures |r| <= |s|
    ensures r == [] <==> IsBlank(s)
    ensures r != [] ==> !IsSpace(r[0]) && !IsSpace(r[|r| - 1])
  {
    var t := TrimStart(s);
    var r := TrimEnd(t);
    TrimEmpty(s, t, r);
    r
  }

  /** `s` is the concatenation of a blank prefix, its trim and a blank suffix. */
  lemma TrimSplit(s: string)
    ensures Lead(s) + |Trim(s)| <= |s|
    ensures s == s[..Lead(s)] + Trim(s) + s[Lead(s) + |Trim(s)|..]
    ensures IsBlank(s[..Lead(s)]) && IsBlank(s[Lead(s) + |Trim(s)|..])
  {
    TrimParts(s, TrimStart(s), Trim(s));
  }

  lemma TrimParts(s: string, t: string, r: string)
    requires t == TrimStart(s) && r == TrimEnd(t)
    ensures Lead(s) + |r| <= |s|
    ensures s == s[..Lead(s)] + r + s[Lead(s) + |r|..]
    ensures IsBlank(s[..Lead(s)]) && IsBlank(s[Lead(s) + |r|..])
    ensures r == [] <==> IsBlank(s)
  {
    Recompose(s, Lead(s), t, r);
    TrimEmpty(s, t, r);
  }

  lemma TrimEmpty(s: string, t: string, r: string)
    requires t == TrimStart(s) && r == TrimEnd(t)
    ensures r == [] <==> IsBlank(s)
  {
    var L := Lead(s);
    assert s == s[..L] + t;
    if r == [] {
      BlankConcat(s[..L], t);
    } else {
      assert s[L] == t[0] == r[0];
    }
  }

  lemma Recompose(s: string, L: nat, t: string, r: string)
    requires L <= |s| && t == s[L..] && |r| <= |t| && r == t[..|r|]
    ensures s[L + |r|..] == t[|r|..]
    ensures s == s[..L] + t
    ensures s == s[..L] + r + s[L + |r|..]
  {
    assert t == r + t[|r|..];
  }

  /** A string that neither starts nor ends with white space is its own trim. */
  lemma TrimClean(s: string)
    requires s == [] || (!IsSpace(s[0]) && !IsSpace(s[|s| - 1]))
    ensures Trim(s) == s
  {
    assert TrimStart(s) == s;
  }

  /** Trimming the start first makes no difference to the trim. */
  lemma TrimAfterStart(s: string)
    ensures Trim(TrimStart(s)) == Trim(s)
  {
    var t := TrimStart(s);
    assert TrimStart(t) == t;
  }

  /** A leading space makes no difference to the trim. */
  lemma TrimSpaceFirst(s: string)
    ensures Trim(" " + s) == Trim(s)
  {
    assert (" " + s)[1..] == s;
    assert TrimStart(" " + s) == TrimStart(s);
  }

  /** The non-white-space characters of `s`, in order: what a chunking that
      only drops white space must preserve. */
  function NonSpace(s: string): (r: string)
    ensures |r| <= |s|
    ensures forall c | c in r :: !IsSpace(c)
  {
    if s == [] then []
    else if IsSpace(s[0]) then NonSpace(s[1..])
    else [s[0]] + NonSpace(s[1..])
  }

  lemma {:induction false} NonSpaceConcat(a: string, b: string)
    ensures NonSpace(a + b) == NonSpace(a) + NonSpace(b)
  {
    if a != [] {
      assert (a + b)[1..] == a[1..] + b;
      NonSpaceConcat(a[1..], b);
    } else {
      assert a + b == b;
    }
  }

  lemma {:induction false} NonSpaceBlank(s: string)
    ensures NonSpace(s) == [] <==> IsBlank(s)
  {
    if s != [] {
      NonSpaceBlank(s[1..]);
      if IsBlank(s[1..]) && IsSpace(s[0]) {
        forall i | 0 <= i < |s| ensures IsSpace(s[i]) { if i > 0 { assert s[i] == s[1..][i - 1]; } }
      }
      if IsBlank(s) {
        forall i | 0 <= i < |s[1..]| ensures IsSpace(s[1..][i]) { assert s[1..][i] == s[i + 1]; }
      }
    }
  }

  /** Trimming never removes a non-white-space character. */
  lemma NonSpaceTrim(s: string)
    ensures NonSpace(Trim(s)) == NonSpace(s)
  {
    TrimSplit(s);
    NonSpaceAround(s[..Lead(s)], Trim(s), s[Lead(s) + |Trim(s)|..]);
  }

  lemma NonSpaceAround(a: string, r: string, b: string)
    requires IsBlank(a) && IsBlank(b)
    ensures NonSpace(a + r + b) == NonSpace(r)
  {
    NonSpaceConcat(a + r, b);
    NonSpaceConcat(a, r);
    NonSpaceBlank(a);
    NonSpaceBlank(b);
  }

  /** `(a + " " + b).trim()` keeps every non-white-space character of both parts, in order. */
  lemma NonSpaceJoin(a: string, b: string)
    ensures NonSpace(Trim(a + " " + b)) == NonSpace(a) + NonSpace(b)
  {
    NonSpaceTrim(a + " " + b);
    NonSpaceConcat(a + " ", b);
    NonSpaceConcat(a, " ");
  }

  /** The concatenation of a sequence of strings. */
  function Concat(ss: seq<string>): (r: string)
    ensures ss == [] ==> r == []
  {
    if ss == [] then [] else ss[0] + Concat(ss[1..])
  }

  lemma {:induction false} ConcatAppend(a: seq<string>, b: seq<string>)
    ensures Concat(a + b) == Concat(a) + Concat(b)
  {
    if a != [] {
      assert (a + b)[1..] == a[1..] + b;
      ConcatAppend(a[1..], b);
    } else {
      assert a + b == b;
    }
  }

  lemma ConcatLast(ss: seq<string>)
    requires |ss| >= 1
    ensures Concat(ss) == Concat(ss[..|ss| - 1]) + ss[|ss| - 1]
  {
    var init, last := ss[..|ss| - 1], ss[|ss| - 1];
    assert ss == init + [last];
    ConcatAppend(init, [last]);
    assert Concat([last]) == last by {
      assert [last][1..] == [];
    }
  }

  /** Whether `pat` occurs in `s` starting at index `k`. */
  predicate OccursAt(s: string, pat: string, k: int) {
    0 <= k && k + |pat| <= |s| && s[k..k + |pat|] == pat
  }

  /** `s.lastIndexOf(pat)`: the greatest index at which `pat` occurs, or -1. */
  function LastIndexOf(s: string, pat: string): (r: int)
    ensures -1 <= r <= |s|
    ensures r >= 0 ==> OccursAt(s, pat, r)
    ensures forall k | r < k <= |s| :: !OccursAt(s, pat, k)
  {
    LastIndexAtOrBelow(s, pat, |s| - |pat|)
  }

  /** The greatest index `k <= from` at which `pat` occurs in `s`, or -1. */
  function LastIndexAtOrBelow(s: string, pat: string, from: int): (r: int)
    requires from <= |s|
    ensures r == -1 || 0 <= r <= from
    ensures r >= 0 ==> OccursAt(s, pat, r)
    ensures forall k | r < k <= from :: !OccursAt(s, pat, k)
    decreases from + 1
  {
    if from < 0 then -1
    else if OccursAt(s, pat, from) then from
    else LastIndexAtOrBelow(s, pat, from - 1)
  }

  /** `s.indexOf(c)` for a one-character pattern: the least index holding `c`, or -1. */
  function IndexOf(s: string, c: char): (r: int)
    ensures -1 <= r < |s|
    ensures r >= 0 ==> s[r] == c && c !in s[..r]
    ensures r == -1 <==> c !in s
  {
    if s == [] then -1
    else if s[0] == c then 0
    else var k := IndexOf(s[1..], c);
      assert s[1..] == s[..][1..];
      if k == -1 then -1
      else
        assert s[..k + 1] == [s[0]] + s[1..][..k];
        k + 1
  }

  /** `s.split(sep)` for a one-character separator. */
  function Split(s: string, sep: char): (r: seq<string>)
    ensures |r| >= 1
    ensures forall piece | piece in r :: sep !in piece
  {
    var k := IndexOf(s, sep);
    if k == -1 then [s]
    else [s[..k]] + Split(s[k + 1..], sep)
  }

  /** `parts.join(sep)`. */
  function Join(parts: seq<string>, sep: char): string
    requires |parts| >= 1
  {
    if |parts| == 1 then parts[0] else parts[0] + [sep] + Join(parts[1..], sep)
  }

  /** Splitting on a character and joining on it again gives back the original string. */
  lemma {:induction false} JoinSplit(s: string, sep: char)
    ensures Join(Split(s, sep), sep) == s
    decreases |s|
  {
    var k := IndexOf(s, sep);
    if k != -1 {
      var rest := Split(s[k + 1..], sep);
      JoinSplit(s[k + 1..], sep);
      var parts := [s[..k]] + rest;
      assert Split(s, sep) == parts;
      assert parts[1..] == rest;
      assert Join(parts, sep) == s[..k] + [sep] + Join(rest, sep);
      assert s == s[..k] + [sep] + s[k + 1..];
    }
  }

  /** The decimal digits of a natural number, as `${n}` renders it. */
  function NatToString(n: nat): (r: string)
    ensures |r| >= 1
    ensures forall c | c in r :: '0' <= c <= '9'
  {
    var d := ['0' + (n % 10) as char];
    if n < 10 then d else NatToString(n / 10) + d
  }
}
