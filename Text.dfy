/** String helpers with the semantics of the Python 2 string methods the
    program uses: `split` on a one-character separator, `join`, `replace`,
    `strip`, `str(n)` and the `"%.2d"` format. */
module Text {

  datatype Option<T> = None | Some(value: T)

  // ---------------------------------------------------------------------------
  // str.split(c) and sep.join(parts)
  // ---------------------------------------------------------------------------

  /** `s.split(c)`: the pieces between occurrences of `c`; never empty. */
  function Split(s: string, c: char): (parts: seq<string>)
    ensures |parts| >= 1
    ensures forall i :: 0 <= i < |parts| ==> c !in parts[i]
  {
    if |s| == 0 then [""]
    else
      var rest := Split(s[1..], c);
      if s[0] == c then [""] + rest
      else [[s[0]] + rest[0]] + rest[1..]
  }

  /** `sep.join(parts)`. */
  function Join(parts: seq<string>, sep: string): string
  {
    if |parts| == 0 then ""
    else if |parts| == 1 then parts[0]
    else parts[0] + sep + Join(parts[1..], sep)
  }

  /** Joining the pieces of a split gives back the original text. */
  lemma {:induction false} JoinSplit(s: string, c: char)
    ensures Join(Split(s, c), [c]) == s
  {
    if |s| > 0 {
      var rest := Split(s[1..], c);
      JoinSplit(s[1..], c);
      if s[0] == c {
        assert ([""] + rest)[1..] == rest;
      } else {
        var parts := [[s[0]] + rest[0]] + rest[1..];
        if |rest| > 1 {
          assert parts[1..] == rest[1..];
        }
      }
    }
  }

  lemma {:induction false} SplitWithoutSeparator(s: string, c: char)
    requires c !in s
    ensures Split(s, c) == [s]
  {
    if |s| > 0 {
      SplitWithoutSeparator(s[1..], c);
      assert [s[0]] + s[1..] == s;
    }
  }

  lemma {:induction false} SplitAtSeparator(a: string, b: string, c: char)
    requires c !in a
    ensures Split(a + [c] + b, c) == [a] + Split(b, c)
  {
    var s := a + [c] + b;
    if |a| == 0 {
      assert s[1..] == b;
    } else {
      assert s[1..] == a[1..] + [c] + b;
      SplitAtSeparator(a[1..], b, c);
      assert [a[0]] + a[1..] == a;
    }
  }

  /** Splitting a join of separator-free pieces gives back the pieces. */
  lemma {:induction false} SplitJoin(parts: seq<string>, c: char)
    requires |parts| >= 1
    requires forall i :: 0 <= i < |parts| ==> c !in parts[i]
    ensures Split(Join(parts, [c]), c) == parts
  {
    if |parts| == 1 {
      SplitWithoutSeparator(parts[0], c);
    } else {
      SplitJoin(parts[1..], c);
      SplitAtSeparator(parts[0], Join(parts[1..], [c]), c);
      assert [parts[0]] + parts[1..] == parts;
    }
  }

  /** Appending one more piece to a join. */
  lemma {:induction false} JoinSnoc(parts: seq<string>, x: string, sep: string)
    requires |parts| >= 1
    ensures Join(parts + [x], sep) == Join(parts, sep) + sep + x
  {
    if |parts| > 1 {
      assert (parts + [x])[1..] == parts[1..] + [x];
      JoinSnoc(parts[1..], x, sep);
    }
  }

  /** Joining two non-empty lists: the two joins meet at one separator. */
  lemma {:induction false} JoinAppend(a: seq<string>, b: seq<string>, sep: string)
    requires |a| >= 1 && |b| >= 1
    ensures Join(a + b, sep) == Join(a, sep) + sep + Join(b, sep)
  {
    if |a| > 1 {
      assert (a + b)[1..] == a[1..] + b;
      JoinAppend(a[1..], b, sep);
    }
  }

  /** Extending the last piece extends the join. */
  lemma JoinExtendLast(parts: seq<string>, z: string, sep: string)
    requires |parts| >= 1
    ensures Join(parts[..|parts| - 1] + [parts[|parts| - 1] + z], sep) == Join(parts, sep) + z
  {
    var n := |parts|;
    if n > 1 {
      JoinSnoc(parts[..n - 1], parts[n - 1] + z, sep);
      JoinSnoc(parts[..n - 1], parts[n - 1], sep);
      assert parts[..n - 1] + [parts[n - 1]] == parts;
    }
  }

  /** `Join` of three pieces, spelled out. */
  lemma JoinThree(a: string, b: string, c: string, sep: string)
    ensures Join([a, b, c], sep) == a + sep + b + sep + c
  {
    assert [a, b, c][1..] == [b, c];
    assert [b, c][1..] == [c];
    assert Join([b, c], sep) == b + sep + c;
  }

  // ---------------------------------------------------------------------------
  // searching: `sub in s`, str.find, str.rfind
  // ---------------------------------------------------------------------------

  /** `s.startswith(prefix)`. */
  predicate StartsWith(s: string, prefix: string)
  {
    |prefix| <= |s| && s[..|prefix|] == prefix
  }

  /** `sub in s`. */
  predicate Contains(s: string, sub: string)
    decreases |s|
  {
    |sub| <= |s| && (s[..|sub|] == sub || Contains(s[1..], sub))
  }

  /** A text that contains `sub` contains its first character. */
  lemma {:induction false} ContainsHead(s: string, sub: string)
    requires |sub| > 0 && Contains(s, sub)
    ensures sub[0] in s
    decreases |s|
  {
    if s[..|sub|] == sub {
      assert s[0] == sub[0];
    } else {
      ContainsHead(s[1..], sub);
    }
  }

  /** An occurrence at any position makes `sub in s` true. */
  lemma {:induction false} ContainsAt(s: string, sub: string, q: nat)
    requires q <= |s| && StartsWith(s[q..], sub)
    ensures Contains(s, sub)
    decreases q
  {
    if q == 0 {
      assert s[0..] == s;
    } else {
      assert s[1..][q - 1..] == s[q..];
      ContainsAt(s[1..], sub, q - 1);
    }
  }

  /** A text that contains `sub` contains every character of it. */
  lemma {:induction false} ContainsChar(s: string, sub: string, k: nat)
    requires k < |sub| && Contains(s, sub)
    ensures sub[k] in s
    decreases |s|
  {
    if s[..|sub|] == sub {
      assert s[k] == sub[k];
    } else {
      ContainsChar(s[1..], sub, k);
    }
  }

  /** Text in front without the pattern's first character adds no
      occurrence of the pattern. */
  lemma {:induction false} NotContainsAfterPlain(a: string, b: string, pat: string)
    requires |pat| > 0 && pat[0] !in a && !Contains(b, pat)
    ensures !Contains(a + b, pat)
    decreases |a|
  {
    if |a| > 0 {
      assert (a + b)[1..] == a[1..] + b;
      NotContainsAfterPlain(a[1..], b, pat);
      if |pat| <= |a + b| {
        assert (a + b)[..|pat|][0] == a[0];
      }
    } else {
      assert a + b == b;
    }
  }

  /** A text whose only `c` is its first character, and whose second
      character differs from the pattern's, does not contain a pattern that
      starts with `c`. */
  lemma OnlyLeading(s: string, sub: string, c: char)
    requires |sub| >= 2 && sub[0] == c && |s| >= 2 && s[1] != sub[1] && c !in s[1..]
    ensures !Contains(s, sub)
  {
    if Contains(s[1..], sub) {
      ContainsHead(s[1..], sub);
    }
    if |sub| <= |s| {
      assert s[..|sub|][1] != sub[1];
    }
  }

  /** The first index at or after `from` that holds `c`. */
  function IndexFrom(s: string, c: char, from: nat): (r: Option<nat>)
    requires from <= |s|
    ensures r.Some? ==> from <= r.value < |s| && s[r.value] == c
    ensures r.Some? ==> forall t :: from <= t < r.value ==> s[t] != c
    ensures r.None? ==> forall t :: from <= t < |s| ==> s[t] != c
    decreases |s| - from
  {
    if from == |s| then None
    else if s[from] == c then Some(from)
    else IndexFrom(s, c, from + 1)
  }

  /** The last index that holds `c`. */
  function LastIndex(s: string, c: char): (r: Option<nat>)
    ensures r.Some? ==> r.value < |s| && s[r.value] == c && c !in s[r.value + 1..]
    ensures r.None? ==> c !in s
  {
    if |s| == 0 then None
    else if s[|s| - 1] == c then Some(|s| - 1)
    else
      var r := LastIndex(s[..|s| - 1], c);
      assert s == s[..|s| - 1] + [s[|s| - 1]];
      r
  }

  // ---------------------------------------------------------------------------
  // str.replace(pattern, replacement)
  // ---------------------------------------------------------------------------

  /** `s.replace(pat, rep)`: left to right, non-overlapping occurrences. */
  function ReplaceAll(s: string, pat: string, rep: string): string
    requires |pat| > 0
    decreases |s|
  {
    if |s| < |pat| then s
    else if s[..|pat|] == pat then rep + ReplaceAll(s[|pat|..], pat, rep)
    else [s[0]] + ReplaceAll(s[1..], pat, rep)
  }

  /** Replacing a pattern that does not occur changes nothing. */
  lemma {:induction false} ReplaceAbsent(s: string, pat: string, rep: string)
    requires |pat| > 0 && !Contains(s, pat)
    ensures ReplaceAll(s, pat, rep) == s
  {
    if |s| >= |pat| {
      ReplaceAbsent(s[1..], pat, rep);
      assert [s[0]] + s[1..] == s;
    }
  }

  /** Text in front that holds no first character of the pattern is kept as
      it is, and the replacing goes on after it. */
  lemma {:induction false} ReplaceKeepsPlain(x: string, y: string, pat: string, rep: string)
    requires |pat| > 0 && pat[0] !in x
    ensures ReplaceAll(x + y, pat, rep) == x + ReplaceAll(y, pat, rep)
    decreases |x|
  {
    if |x| == 0 {
      assert x + y == y;
    } else {
      assert x + y == [x[0]] + (x[1..] + y);
      ReplaceKeepsHead(x[0], x[1..] + y, pat, rep);
      ReplaceKeepsPlain(x[1..], y, pat, rep);
      assert x == [x[0]] + x[1..];
    }
  }

  /** An occurrence at the front is replaced, and the replacing goes on after
      it. */
  lemma ReplaceAtHead(y: string, pat: string, rep: string)
    requires |pat| > 0
    ensures ReplaceAll(pat + y, pat, rep) == rep + ReplaceAll(y, pat, rep)
  {
    assert (pat + y)[..|pat|] == pat;
    assert (pat + y)[|pat|..] == y;
  }

  /** No occurrence of the pattern starts inside `x`: the replacing keeps
      `x` as it is and goes on after it. */
  lemma {:induction false} ReplaceKeepsFront(x: string, y: string, pat: string, rep: string)
    requires |pat| > 0
    requires forall q :: 0 <= q < |x| ==> !StartsWith((x + y)[q..], pat)
    ensures ReplaceAll(x + y, pat, rep) == x + ReplaceAll(y, pat, rep)
    decreases |x|
  {
    if |x| == 0 {
      assert x + y == y;
    } else {
      var s := x + y;
      assert s[0..] == s;
      assert s[1..] == x[1..] + y;
      forall q | 0 <= q < |x| - 1
        ensures !StartsWith((x[1..] + y)[q..], pat)
      {
        assert (x[1..] + y)[q..] == s[q + 1..];
      }
      ReplaceKeepsFront(x[1..], y, pat, rep);
      assert x == [x[0]] + x[1..];
    }
  }

  /** The pattern's first character does not come back later in it, as for
      `{channel}`: two occurrences can then never overlap. */
  predicate HeadUnique(pat: string)
  {
    |pat| > 0 && forall k :: 0 < k < |pat| ==> pat[k] != pat[0]
  }

  /** A piece that does not contain the pattern, followed by nothing or by a
      text starting like the pattern, holds no start of an occurrence. */
  lemma NoStartInside(a: string, y: string, pat: string)
    requires HeadUnique(pat) && !Contains(a, pat)
    requires |y| == 0 || y[0] == pat[0]
    ensures forall q :: 0 <= q < |a| ==> !StartsWith((a + y)[q..], pat)
  {
    var s := a + y;
    forall q | 0 <= q < |a|
      ensures !StartsWith(s[q..], pat)
    {
      if q + |pat| <= |a| {
        assert a[q..][..|pat|] == s[q..][..|pat|];
        if StartsWith(s[q..], pat) {
          ContainsAt(a, pat, q);
        }
      } else if q + |pat| <= |s| {
        var k := |a| - q;
        assert s[q..][..|pat|][k] == y[0] == pat[0] != pat[k];
      }
    }
  }

  /** `s.replace(pat, rep)` replaces every occurrence: a text made of pieces
      that do not contain the pattern, separated by it, becomes the same
      pieces separated by the replacement. The pattern must not overlap
      itself at its first character, which holds for `{channel}`. */
  lemma {:induction false} ReplaceEvery(parts: seq<string>, pat: string, rep: string)
    requires HeadUnique(pat)
    requires forall i :: 0 <= i < |parts| ==> !Contains(parts[i], pat)
    ensures ReplaceAll(Join(parts, pat), pat, rep) == Join(parts, rep)
  {
    if |parts| == 1 {
      NoStartInside(parts[0], "", pat);
      ReplaceKeepsFront(parts[0], "", pat, rep);
      assert parts[0] + "" == parts[0];
    } else if |parts| > 1 {
      var rest := Join(parts[1..], pat);
      assert Join(parts, pat) == parts[0] + (pat + rest);
      NoStartInside(parts[0], pat + rest, pat);
      ReplaceKeepsFront(parts[0], pat + rest, pat, rep);
      ReplaceAtHead(rest, pat, rep);
      ReplaceEvery(parts[1..], pat, rep);
    }
  }

  /** A leading character that cannot start the pattern is kept as it is. */
  lemma ReplaceKeepsHead(c: char, x: string, pat: string, rep: string)
    requires |pat| > 0 && c != pat[0]
    ensures ReplaceAll([c] + x, pat, rep) == [c] + ReplaceAll(x, pat, rep)
  {
    var s := [c] + x;
    assert s[1..] == x;
    if |s| >= |pat| {
      assert s[..|pat|][0] == c;
    }
  }

  /** A trailing character that does not occur in the pattern is kept as it is. */
  lemma {:induction false} ReplaceKeepsTail(x: string, c: char, pat: string, rep: string)
    requires |pat| > 0 && c !in pat
    ensures ReplaceAll(x + [c], pat, rep) == ReplaceAll(x, pat, rep) + [c]
    decreases |x|
  {
    var s := x + [c];
    if |s| < |pat| {
    } else if |x| < |pat| {
      assert s[..|pat|] != pat by {
        assert s[..|pat|][|pat| - 1] == c;
      }
      if |x| == 0 {
        assert s[1..] == [];
      } else {
        assert s[1..] == x[1..] + [c];
        assert |s[1..]| < |pat|;
        assert [s[0]] + x[1..] == x;
      }
    } else if x[..|pat|] == pat {
      assert s[..|pat|] == pat;
      assert s[|pat|..] == x[|pat|..] + [c];
      ReplaceKeepsTail(x[|pat|..], c, pat, rep);
    } else {
      assert s[..|pat|] == x[..|pat|];
      assert s[1..] == x[1..] + [c];
      ReplaceKeepsTail(x[1..], c, pat, rep);
    }
  }

  // ---------------------------------------------------------------------------
  // str.strip()
  // ---------------------------------------------------------------------------

  /** The characters C's isspace accepts: space, \t, \n, \v, \f, \r. */
  predicate IsSpace(c: char)
  {
    c == ' ' || ('\t' <= c <= '\r')
  }

  function TrimLeft(s: string): (r: string)
    ensures |r| <= |s| && r == s[|s| - |r|..]
    ensures |r| > 0 ==> !IsSpace(r[0])
    ensures forall k :: 0 <= k < |s| - |r| ==> IsSpace(s[k])
  {
    if |s| > 0 && IsSpace(s[0]) then TrimLeft(s[1..]) else s
  }

  function TrimRight(s: string): (r: string)
    ensures |r| <= |s| && r == s[..|r|]
    ensures |r| > 0 ==> !IsSpace(r[|r| - 1])
    ensures forall k :: |r| <= k < |s| ==> IsSpace(s[k])
  {
    if |s| > 0 && IsSpace(s[|s| - 1]) then TrimRight(s[..|s| - 1]) else s
  }

  /** `s.strip()`: the slice of `s` that remains once white space is cut off
      at both ends; every other character of `s` lies inside it. */
  function Strip(s: string): (r: string)
    ensures var lead := |s| - |TrimLeft(s)|;
      && lead + |r| <= |s| && r == s[lead..lead + |r|]
      && (forall k :: 0 <= k < lead ==> IsSpace(s[k]))
      && (forall k :: lead + |r| <= k < |s| ==> IsSpace(s[k]))
    ensures |r| > 0 ==> !IsSpace(r[0]) && !IsSpace(r[|r| - 1])
  {
    var left := TrimLeft(s);
    var r := TrimRight(left);
    SliceOfSuffix(s, left, r);
    r
  }

  /** A prefix `r` of a suffix `left` of `s` is a slice of `s`, and what
      follows `r` in `left` is what follows it in `s`. */
  lemma SliceOfSuffix(s: string, left: string, r: string)
    requires |left| <= |s| && left == s[|s| - |left|..]
    requires |r| <= |left| && r == left[..|r|]
    requires forall k :: |r| <= k < |left| ==> IsSpace(left[k])
    requires |left| > 0 ==> !IsSpace(left[0])
    ensures |r| > 0 ==> !IsSpace(r[0])
    ensures var lead := |s| - |left|;
      r == s[lead..lead + |r|] && forall k :: lead + |r| <= k < |s| ==> IsSpace(s[k])
  {
    var lead := |s| - |left|;
    forall k | lead + |r| <= k < |s| ensures IsSpace(s[k]) {
      assert s[k] == left[k - lead];
    }
  }

  // ---------------------------------------------------------------------------
  // str(n) and "%.2d" % n
  // ---------------------------------------------------------------------------

  predicate IsDigit(c: char)
  {
    '0' <= c <= '9'
  }

  predicate AllDigits(s: string)
  {
    forall i :: 0 <= i < |s| ==> IsDigit(s[i])
  }

  function Digit(d: nat): (c: char)
    requires d < 10
    ensures IsDigit(c) && c as int - '0' as int == d
  {
    ('0' as int + d) as char
  }

  /** `str(n)` for a non-negative integer: its decimal digits. */
  function NatToString(n: nat): (s: string)
    ensures |s| >= 1 && AllDigits(s)
  {
    if n < 10 then [Digit(n)] else NatToString(n / 10) + [Digit(n % 10)]
  }

  /** The value of a string of decimal digits (the inverse of `NatToString`). */
  function DigitsValue(s: string): nat
    requires AllDigits(s)
  {
    if |s| == 0 then 0
    else DigitsValue(s[..|s| - 1]) * 10 + (s[|s| - 1] as int - '0' as int)
  }

  /** Reading back the digits of `str(n)` gives `n`. */
  lemma {:induction false} NatToStringValue(n: nat)
    ensures DigitsValue(NatToString(n)) == n
  {
    if n < 10 {
      assert [Digit(n)][..0] == [];
    } else {
      var s := NatToString(n);
      assert s[..|s| - 1] == NatToString(n / 10);
      NatToStringValue(n / 10);
    }
  }

  /** `str` is injective on the naturals. */
  lemma NatToStringInjective(a: nat, b: nat)
    requires NatToString(a) == NatToString(b)
    ensures a == b
  {
    NatToStringValue(a);
    NatToStringValue(b);
  }

  /** `"%.2d" % n`: at least two digits, zero-padded. */
  function Pad2(n: nat): string
  {
    if n < 10 then "0" + NatToString(n) else NatToString(n)
  }

  /** `f` is what `"%.2d" % n` prints: digits reading back as `n`, exactly two
      of them below 100, and no zero in front beyond that width. */
  predicate IsPad2Of(f: string, n: nat)
  {
    AllDigits(f) && DigitsValue(f) == n && |f| >= 2
    && (n < 100 ==> |f| == 2) && (n >= 10 ==> f[0] != '0')
  }

  /** `str(n)` starts with a non-zero digit unless `n` is 0, and has two
      digits from 10 to 99. */
  lemma {:induction false} NatToStringShape(n: nat)
    ensures n >= 1 ==> NatToString(n)[0] != '0'
    ensures 10 <= n < 100 ==> |NatToString(n)| == 2
  {
    if n >= 10 {
      NatToStringShape(n / 10);
    }
  }

  /** `"%.2d" % n` has the width and the value `IsPad2Of` describes. */
  lemma Pad2Value(n: nat)
    ensures IsPad2Of(Pad2(n), n)
  {
    if n < 10 {
      var s := Pad2(n);
      assert s == ['0', Digit(n)];
      assert s[..1] == "0";
      assert s[..1][..0] == [];
      assert AllDigits(s);
      assert DigitsValue(s[..1]) == 0;
    } else {
      NatToStringValue(n);
      NatToStringValue(n / 10);
      NatToStringShape(n);
    }
  }

  /** `"%.2d:%.2d:%.2d" % (h, m, s)`. */
  function Hms(h: nat, m: nat, s: nat): string
  {
    Pad2(h) + ":" + Pad2(m) + ":" + Pad2(s)
  }

  /** The three fields of an `hh:mm:ss` text split apart on `:` are the
      `%.2d` texts of the three numbers. */
  lemma HmsFields(h: nat, m: nat, s: nat)
    ensures var parts := Split(Hms(h, m, s), ':');
      |parts| == 3 && IsPad2Of(parts[0], h) && IsPad2Of(parts[1], m) && IsPad2Of(parts[2], s)
  {
    Pad2Value(h);
    Pad2Value(m);
    Pad2Value(s);
    var fields := [Pad2(h), Pad2(m), Pad2(s)];
    JoinThree(Pad2(h), Pad2(m), Pad2(s), ":");
    forall i | 0 <= i < 3 ensures ':' !in fields[i] {
      assert AllDigits(fields[i]);
    }
    SplitJoin(fields, ':');
  }
}
