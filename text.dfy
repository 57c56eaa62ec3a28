/** The pieces of Python's `str` that the modelled code relies on:
    `split`, `join`, `strip`/`rstrip`, `in` on strings, `lower`, and
    `f"{n}"` for a non-negative integer. */
module Text {

  /** The characters Python's argument-less `str.strip()` removes
      (those for which `str.isspace()` holds). */
  const Whitespace: set<char> :=
    {'\t', '\n', '\U{0B}', '\U{0C}', '\r', '\U{1C}', '\U{1D}', '\U{1E}', '\U{1F}', ' ',
     '\U{85}', '\U{A0}', '\U{1680}',
     '\U{2000}', '\U{2001}', '\U{2002}', '\U{2003}', '\U{2004}', '\U{2005}',
     '\U{2006}', '\U{2007}', '\U{2008}', '\U{2009}', '\U{200A}',
     '\U{2028}', '\U{2029}', '\U{202F}', '\U{205F}', '\U{3000}'}

  /** `s.split(sep)`: the pieces between the leftmost non-overlapping
      occurrences of `sep`, scanning from the left. */
  function Split(s: string, sep: string): (r: seq<string>)
    requires |sep| > 0
    ensures |r| >= 1
    decreases |s|
  {
    if |s| < |sep| then [s]
    else if s[..|sep|] == sep then [""] + Split(s[|sep|..], sep)
    else
      var rest := Split(s[1..], sep);
      [[s[0]] + rest[0]] + rest[1..]
  }

  /** Splitting on one character gives one more piece than there are
      occurrences of that character. */
  lemma {:induction false} SplitCount(s: string, c: char)
    ensures |Split(s, [c])| == multiset(s)[c] + 1
  {
    if |s| > 0 {
      assert s == [s[0]] + s[1..];
      SplitCount(s[1..], c);
    }
  }

  /** No piece of a split on one character contains that character. */
  lemma {:induction false} SplitPiecesFree(s: string, c: char)
    ensures forall i :: 0 <= i < |Split(s, [c])| ==> c !in Split(s, [c])[i]
  {
    if |s| > 0 {
      SplitPiecesFree(s[1..], c);
    }
  }

  /** `sep.join(ws)`. */
  function Join(ws: seq<string>, sep: string): string
  {
    if |ws| == 0 then ""
    else if |ws| == 1 then ws[0]
    else ws[0] + sep + Join(ws[1..], sep)
  }

  /** Appending one more word adds the separator and that word. */
  lemma {:induction false} JoinSnoc(ws: seq<string>, w: string, sep: string)
    requires |ws| >= 1
    ensures Join(ws + [w], sep) == Join(ws, sep) + sep + w
  {
    if |ws| == 1 {
      assert ws + [w] == [ws[0], w];
    } else {
      assert (ws + [w])[1..] == ws[1..] + [w];
      JoinSnoc(ws[1..], w, sep);
    }
  }

  /** Splitting a word without the separator, followed by anything. */
  lemma {:induction false} SplitAfterWord(w: string, t: string, c: char)
    requires c !in w
    ensures Split(w + t, [c]) == [w + Split(t, [c])[0]] + Split(t, [c])[1..]
  {
    if w == [] {
      var r := Split(t, [c]);
      assert w + t == t && w + r[0] == r[0];
      assert r == [r[0]] + r[1..];
    } else {
      var s := w + t;
      assert s[0] == w[0] && w[0] != c;
      assert s[..1] != [c];
      var rest := Split(s[1..], [c]);
      assert Split(s, [c]) == [[s[0]] + rest[0]] + rest[1..];
      assert s[1..] == w[1..] + t;
      SplitAfterWord(w[1..], t, c);
      assert [s[0]] + rest[0] == w + Split(t, [c])[0];
    }
  }

  /** Splitting a join recovers the words when none contains the separator. */
  lemma {:induction false} SplitJoin(ws: seq<string>, c: char)
    requires |ws| >= 1
    requires forall i :: 0 <= i < |ws| ==> c !in ws[i]
    ensures Split(Join(ws, [c]), [c]) == ws
  {
    if |ws| == 1 {
      SplitAfterWord(ws[0], "", c);
      assert ws[0] + "" == ws[0];
    } else {
      var t := [c] + Join(ws[1..], [c]);
      assert Join(ws, [c]) == ws[0] + t;
      SplitAfterWord(ws[0], t, c);
      assert t[..1] == [c] && t[1..] == Join(ws[1..], [c]);
      assert Split(t, [c]) == [""] + Split(Join(ws[1..], [c]), [c]);
      SplitJoin(ws[1..], c);
      assert Split(t, [c])[0] == "" && Split(t, [c])[1..] == ws[1..];
      assert ws[0] + "" == ws[0];
      assert ws == [ws[0]] + ws[1..];
    }
  }

  /** A join holds no character that neither the words nor the separator hold. */
  lemma {:induction false} JoinKeepsOut(ws: seq<string>, sep: string, c: char)
    requires c !in sep
    requires forall i :: 0 <= i < |ws| ==> c !in ws[i]
    ensures c !in Join(ws, sep)
  {
    if |ws| > 1 {
      JoinKeepsOut(ws[1..], sep, c);
    }
  }

  /** A join starts with its first word. */
  lemma JoinHead(ws: seq<string>, sep: string)
    requires |ws| >= 1
    ensures |ws[0]| <= |Join(ws, sep)| && Join(ws, sep)[..|ws[0]|] == ws[0]
  {
  }

  /** A string the separator does not occur in splits into itself alone. */
  lemma {:induction false} SplitNotContained(s: string, sep: string)
    requires |sep| > 0 && !Contains(s, sep)
    ensures Split(s, sep) == [s]
    decreases |s|
  {
    if |s| >= |sep| {
      assert !OccursAt(s, sep, 0);
      assert s == [s[0]] + s[1..];
      forall k | 0 <= k <= |s| - 1 - |sep| ensures !OccursAt(s[1..], sep, k) {
        assert s[1..][k..k + |sep|] == s[k + 1..k + 1 + |sep|];
        assert !OccursAt(s, sep, k + 1);
      }
      SplitNotContained(s[1..], sep);
    }
  }

  /** `s.rfind(c)`: the index of the last `c` in `s`, or -1. */
  function RFind(s: string, c: char): (r: int)
    ensures -1 <= r < |s|
    ensures r >= 0 ==> s[r] == c
    ensures forall j :: r < j < |s| ==> s[j] != c
  {
    if |s| == 0 then -1
    else if s[|s| - 1] == c then |s| - 1
    else RFind(s[..|s| - 1], c)
  }

  /** `s.lstrip(cs)`: drops the leading characters that are in `cs`. */
  function TrimStart(s: string, cs: set<char>): (r: string)
    ensures |r| <= |s| && r == s[|s| - |r|..]
    ensures forall i :: 0 <= i < |s| - |r| ==> s[i] in cs
    ensures r == "" || r[0] !in cs
  {
    if |s| > 0 && s[0] in cs then TrimStart(s[1..], cs) else s
  }

  /** `s.rstrip(cs)`: drops the trailing characters that are in `cs`. */
  function TrimEnd(s: string, cs: set<char>): (r: string)
    ensures |r| <= |s| && r == s[..|r|]
    ensures forall i :: |r| <= i < |s| ==> s[i] in cs
    ensures r == "" || r[|r| - 1] !in cs
  {
    if |s| > 0 && s[|s| - 1] in cs then TrimEnd(s[..|s| - 1], cs) else s
  }

  /** `s.strip(cs)`: `s` without its leading and trailing characters of
      `cs`; the result neither starts nor ends with one. */
  function Strip(s: string, cs: set<char>): (r: string)
    ensures |r| <= |s|
    ensures r == "" || (r[0] !in cs && r[|r| - 1] !in cs)
  {
    TrimEnd(TrimStart(s, cs), cs)
  }

  /** What stripping keeps is a contiguous slice of `s`, and everything it
      cuts away is in `cs`. */
  lemma StripIsSlice(s: string, cs: set<char>)
    ensures exists i, j :: CutAround(s, cs, i, j) && Strip(s, cs) == s[i..j]
  {
    var t := TrimStart(s, cs);
    var r := TrimEnd(t, cs);
    var i := |s| - |t|;
    var j := i + |r|;
    assert r == s[i..j];
    assert CutAround(s, cs, i, j) by {
      forall k | j <= k < |s| ensures s[k] in cs {
        assert s[k] == t[k - i];
      }
    }
  }

  /** `s[..i]` and `s[j..]` consist of characters of `cs`. */
  ghost predicate CutAround(s: string, cs: set<char>, i: int, j: int)
  {
    && 0 <= i <= j <= |s|
    && (forall k :: 0 <= k < i ==> s[k] in cs)
    && (forall k :: j <= k < |s| ==> s[k] in cs)
  }

  /** `sub` occurs in `s` starting at index `k`. */
  ghost predicate OccursAt(s: string, sub: string, k: int)
  {
    0 <= k <= |s| - |sub| && s[k..k + |sub|] == sub
  }

  /** `sub in s`. */
  function Contains(s: string, sub: string): (b: bool)
    ensures b <==> exists k :: OccursAt(s, sub, k)
  {
    if sub <= s then
      assert OccursAt(s, sub, 0);
      true
    else if |s| == 0 then false
    else
      var b := Contains(s[1..], sub);
      assert b ==> exists k :: OccursAt(s, sub, k) by {
        if b {
          var k :| OccursAt(s[1..], sub, k);
          assert s[1..][k..k + |sub|] == s[k + 1..k + 1 + |sub|];
          assert OccursAt(s, sub, k + 1);
        }
      }
      assert (exists k :: OccursAt(s, sub, k)) ==> b by {
        if exists k :: OccursAt(s, sub, k) {
          var k :| OccursAt(s, sub, k);
          if k > 0 {
            assert s[1..][k - 1..k - 1 + |sub|] == s[k..k + |sub|];
            assert OccursAt(s[1..], sub, k - 1);
          }
        }
      }
      b
  }

  /** A string occurs in any string built around it. */
  lemma InfixContains(a: string, sub: string, b: string)
    ensures Contains(a + sub + b, sub)
  {
    var s := a + sub + b;
    assert s[|a|..|a| + |sub|] == sub;
    assert OccursAt(s, sub, |a|);
  }

  /** Stripping cuts exactly a leading run and a trailing run of characters
      of `cs` around a text that neither starts nor ends with one. */
  lemma StripAround(pre: string, a: string, post: string, cs: set<char>)
    requires forall i :: 0 <= i < |pre| ==> pre[i] in cs
    requires forall i :: 0 <= i < |post| ==> post[i] in cs
    requires a != "" && a[0] !in cs && a[|a| - 1] !in cs
    ensures Strip(pre + a + post, cs) == a
  {
    var t := a + post;
    assert pre + a + post == pre + t;
    assert t[0] == a[0];
    TrimStartPrefix(pre, t, cs);
    TrimStartKeeps(t, cs);
    TrimEndSuffix(a, post, cs);
    TrimEndKeeps(a, cs);
  }

  lemma TrimStartKeeps(t: string, cs: set<char>)
    requires t != "" && t[0] !in cs
    ensures TrimStart(t, cs) == t
  {
  }

  lemma TrimEndKeeps(t: string, cs: set<char>)
    requires t != "" && t[|t| - 1] !in cs
    ensures TrimEnd(t, cs) == t
  {
  }

  lemma {:induction false} TrimStartPrefix(pre: string, t: string, cs: set<char>)
    requires forall i :: 0 <= i < |pre| ==> pre[i] in cs
    ensures TrimStart(pre + t, cs) == TrimStart(t, cs)
  {
    if pre != [] {
      assert (pre + t)[0] == pre[0] && (pre + t)[1..] == pre[1..] + t;
      TrimStartPrefix(pre[1..], t, cs);
    } else {
      assert pre + t == t;
    }
  }

  lemma {:induction false} TrimEndSuffix(t: string, post: string, cs: set<char>)
    requires forall i :: 0 <= i < |post| ==> post[i] in cs
    ensures TrimEnd(t + post, cs) == TrimEnd(t, cs)
  {
    if post != [] {
      var p := post[..|post| - 1];
      assert (t + post)[..|t + post| - 1] == t + p;
      TrimEndSuffix(t, p, cs);
    } else {
      assert t + post == t;
    }
  }

  /** A string without the separator splits into itself alone. */
  lemma SplitWithout(s: string, c: char)
    requires c !in s
    ensures Split(s, [c]) == [s]
  {
    SplitJoin([s], c);
  }

  /** What occurs in a string occurs in any string ending with it. */
  lemma ContainsInSuffix(a: string, b: string, sub: string)
    requires Contains(b, sub)
    ensures Contains(a + b, sub)
  {
    var k :| OccursAt(b, sub, k);
    assert (a + b)[|a| + k..|a| + k + |sub|] == b[k..k + |sub|];
    assert OccursAt(a + b, sub, |a| + k);
  }

  /** Stripping adds no character: one that is not in `s` is not in the
      result. */
  lemma StripKeepsOut(s: string, cs: set<char>, c: char)
    requires c !in s
    ensures c !in Strip(s, cs)
  {
    var t := TrimStart(s, cs);
    SliceKeepsOut(s, |s| - |t|, |s|, c);
    SliceKeepsOut(t, 0, |TrimEnd(t, cs)|, c);
  }

  lemma SliceKeepsOut(s: string, i: int, j: int, c: char)
    requires 0 <= i <= j <= |s| && c !in s
    ensures c !in s[i..j]
  {
    forall k | 0 <= k < j - i ensures s[i..j][k] != c {
      assert s[i..j][k] == s[i + k];
    }
  }

  /** `c.lower()` restricted to ASCII letters; every other character is
      left as it is. */
  function LowerChar(c: char): char
  {
    if 'A' <= c <= 'Z' then (c as int + 32) as char else c
  }

  /** `s.lower()`, character by character. */
  function Lower(s: string): (r: string)
    ensures |r| == |s|
  {
    seq(|s|, i requires 0 <= i < |s| => LowerChar(s[i]))
  }

  function Pow10(k: nat): (p: nat)
    ensures p >= 1
  {
    if k == 0 then 1 else 10 * Pow10(k - 1)
  }

  /** `f"{n}"`: the decimal digits of `n`, no leading zero. */
  function Decimal(n: nat): (r: string)
    ensures |r| >= 1
    ensures forall i :: 0 <= i < |r| ==> '0' <= r[i] <= '9'
    decreases n
  {
    var d := ['0' + (n % 10) as char];
    if n < 10 then d else Decimal(n / 10) + d
  }

  /** A number of at least 10^k has more than k digits. */
  lemma {:induction false} DecimalLength(n: nat, k: nat)
    requires n >= Pow10(k)
    ensures |Decimal(n)| > k
    decreases k
  {
    if k > 0 {
      assert n / 10 >= Pow10(k - 1);
      DecimalLength(n / 10, k - 1);
    }
  }
}
