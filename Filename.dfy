/** The output-file name of a recording (`make_filename` in utils.py) and the
    `hh:mm:ss` text of a number of seconds (`secs_to_str`). The clock
    (`time.localtime()`) is a `DateTime` argument and the file system
    (`os.path.exists`) a finite set of the paths that exist. */
module Filename {
  import opened Text

  /** The fields of `time.localtime()` that a template can use. */
  datatype DateTime = DateTime(year: nat, month: nat, day: nat, hour: nat, minute: nat, second: nat)

  // ---------------------------------------------------------------------------
  // {...} groups
  // ---------------------------------------------------------------------------

  /** `str(year)[2:]`: the year without its first two digits. */
  function YearTail(year: nat): string
  {
    var y := NatToString(year);
    if |y| >= 2 then y[2..] else ""
  }

  /** The codes a group may hold, with their replacement text, in the order
      in which they are replaced. */
  function Codes(now: DateTime, channel: string): (reps: seq<(string, string)>)
    ensures IsCodeList(reps)
  {
    [("%Y", NatToString(now.year)), ("%y", YearTail(now.year)),
     ("%m", Pad2(now.month)), ("%d", Pad2(now.day)),
     ("%H", Pad2(now.hour)), ("%M", Pad2(now.minute)), ("%S", Pad2(now.second)),
     ("%channel", channel)]
  }

  /** Every code is a `%` followed by letters: never empty, never a brace. */
  predicate IsCodeList(reps: seq<(string, string)>)
  {
    forall i :: 0 <= i < |reps| ==>
      |reps[i].0| > 0 && reps[i].0[0] == '%' && '}' !in reps[i].0
  }

  /** The `str.replace` calls one after another. */
  function ReplaceEach(text: string, reps: seq<(string, string)>): string
    requires IsCodeList(reps)
    decreases |reps|
  {
    if |reps| == 0 then text
    else ReplaceEach(ReplaceAll(text, reps[0].0, reps[0].1), reps[1..])
  }

  /** `repl_func`: replace the codes in the matched group, braces included,
      then drop the first and the last character. */
  function GroupText(group: string, now: DateTime, channel: string): string
  {
    var t := ReplaceEach(group, Codes(now, channel));
    if |t| >= 2 then t[1..|t| - 1] else ""
  }

  /** The replacements never reach across the braces of a group. */
  lemma {:induction false} ReplaceEachInsideBraces(inner: string, reps: seq<(string, string)>)
    requires IsCodeList(reps)
    ensures ReplaceEach("{" + inner + "}", reps) == "{" + ReplaceEach(inner, reps) + "}"
    decreases |reps|
  {
    if |reps| > 0 {
      var pat := reps[0].0;
      var rep := reps[0].1;
      assert "{" + inner + "}" == ['{'] + (inner + ['}']);
      ReplaceKeepsHead('{', inner + ['}'], pat, rep);
      ReplaceKeepsTail(inner, '}', pat, rep);
      var inner' := ReplaceAll(inner, pat, rep);
      assert ReplaceAll("{" + inner + "}", pat, rep) == "{" + inner' + "}";
      ReplaceEachInsideBraces(inner', reps[1..]);
    }
  }

  /** A group `{inner}` becomes `inner` with its codes replaced: the braces
      go, and nothing else is cut. */
  lemma GroupTextOfBraces(inner: string, now: DateTime, channel: string)
    ensures GroupText("{" + inner + "}", now, channel) == ReplaceEach(inner, Codes(now, channel))
  {
    ReplaceEachInsideBraces(inner, Codes(now, channel));
  }

  /** Text without a `%` holds no code and is left as it is. */
  lemma {:induction false} ReplaceEachNoCode(text: string, reps: seq<(string, string)>)
    requires IsCodeList(reps) && '%' !in text
    ensures ReplaceEach(text, reps) == text
    decreases |reps|
  {
    if |reps| > 0 {
      if Contains(text, reps[0].0) {
        ContainsHead(text, reps[0].0);
      }
      ReplaceAbsent(text, reps[0].0, reps[0].1);
      ReplaceEachNoCode(text, reps[1..]);
    }
  }

  /** A text that is exactly the code at `k` becomes that code's value when
      no earlier code occurs in it and no later code can occur in the value. */
  lemma ReplaceEachSingle(reps: seq<(string, string)>, k: nat)
    requires IsCodeList(reps) && k < |reps|
    requires forall j :: 0 <= j < k ==> !Contains(reps[k].0, reps[j].0)
    requires '%' !in reps[k].1 || k == |reps| - 1
    ensures ReplaceEach(reps[k].0, reps) == reps[k].1
    decreases k
  {
    assert IsCodeList(reps[1..]);
    if k == 0 {
      var code, value := reps[0].0, reps[0].1;
      assert code[..|code|] == code && code[|code|..] == "";
      assert ReplaceAll(code, code, value) == value + ReplaceAll("", code, value);
      assert ReplaceAll(code, code, value) == value;
      assert ReplaceEach(code, reps) == ReplaceEach(value, reps[1..]);
      if |reps| > 1 {
        ReplaceEachNoCode(value, reps[1..]);
      }
    } else {
      ReplaceAbsent(reps[k].0, reps[0].0, reps[0].1);
      ReplaceEachSingle(reps[1..], k - 1);
    }
  }

  /** Each code of `repl_func` and its value: a group holding a single code
      becomes that code's value — `%Y` the year, `%y` the year from its third
      digit on, `%m %d %H %M %S` two-digit fields, `%channel` the channel
      text. */
  lemma GroupWithOneCode(now: DateTime, channel: string, k: nat)
    requires k < 8
    ensures var code := Codes(now, channel)[k];
      ExpandGroups("{" + code.0 + "}", now, channel) == code.1
  {
    var reps := Codes(now, channel);
    CodesApart(now, channel);
    ReplaceEachSingle(reps, k);
    ExpandOneGroup(reps[k].0, now, channel);
  }

  /** The year groups: `{%Y}` reads back as the year, and `{%y}` is the year
      from its third digit on. */
  lemma GroupYearFields(now: DateTime, channel: string)
    ensures var y := ExpandGroups("{" + "%Y" + "}", now, channel);
      AllDigits(y) && DigitsValue(y) == now.year
    ensures |NatToString(now.year)| >= 2 ==>
      ExpandGroups("{" + "%y" + "}", now, channel) == NatToString(now.year)[2..]
  {
    GroupWithOneCode(now, channel, 0);
    GroupWithOneCode(now, channel, 1);
    NatToStringValue(now.year);
  }

  /** The date and time groups `{%m}` to `{%S}` are the `%.2d` texts of their
      fields. */
  lemma GroupTimeFields(now: DateTime, channel: string)
    ensures IsPad2Of(ExpandGroups("{" + "%m" + "}", now, channel), now.month)
    ensures IsPad2Of(ExpandGroups("{" + "%d" + "}", now, channel), now.day)
    ensures IsPad2Of(ExpandGroups("{" + "%H" + "}", now, channel), now.hour)
    ensures IsPad2Of(ExpandGroups("{" + "%M" + "}", now, channel), now.minute)
    ensures IsPad2Of(ExpandGroups("{" + "%S" + "}", now, channel), now.second)
  {
    GroupPad2(now, channel, 2, "%m", now.month);
    GroupPad2(now, channel, 3, "%d", now.day);
    GroupPad2(now, channel, 4, "%H", now.hour);
    GroupPad2(now, channel, 5, "%M", now.minute);
    GroupPad2(now, channel, 6, "%S", now.second);
  }

  /** One of the two-digit codes, alone in a group, prints its field. */
  lemma GroupPad2(now: DateTime, channel: string, k: nat, code: string, field: nat)
    requires 2 <= k < 7 && Codes(now, channel)[k] == (code, Pad2(field))
    ensures IsPad2Of(ExpandGroups("{" + code + "}", now, channel), field)
  {
    GroupWithOneCode(now, channel, k);
    Pad2Value(field);
  }

  /** A text that is one group and nothing else becomes the group's text. */
  lemma ExpandOneGroup(inner: string, now: DateTime, channel: string)
    requires '}' !in inner
    ensures ExpandGroups("{" + inner + "}", now, channel) == ReplaceEach(inner, Codes(now, channel))
  {
    var s := "{" + inner + "}";
    var j := |inner| + 1;
    assert FindGroup(s) == Some((0, j)) by {
      assert s[0] == '{' && s[j] == '}';
      assert forall t :: 1 <= t < j ==> s[t] == inner[t - 1];
    }
    assert s[..0] == "" && s[0..j + 1] == s && s[j + 1..] == "";
    GroupTextOfBraces(inner, now, channel);
    ExpandGroupsLiteral("", now, channel);
  }

  /** A group without a code only loses its braces: `{Y}` becomes `Y`. */
  lemma GroupWithoutCode(inner: string, now: DateTime, channel: string)
    requires '%' !in inner && '}' !in inner
    ensures ExpandGroups("{" + inner + "}", now, channel) == inner
  {
    CodesApart(now, channel);
    ReplaceEachNoCode(inner, Codes(now, channel));
    ExpandOneGroup(inner, now, channel);
  }

  /** No code contains an earlier one, and only the last value (the channel
      text) may hold a `%`. */
  lemma CodesApart(now: DateTime, channel: string)
    ensures var reps := Codes(now, channel);
      IsCodeList(reps)
      && (forall i, j :: 0 <= j < i < 8 ==> !Contains(reps[i].0, reps[j].0))
      && (forall i :: 0 <= i < 7 ==> '%' !in reps[i].1)
  {
    CodeNamesApart(Codes(now, channel));
    CodeValuesPlain(now, channel);
  }

  /** The eight code names are the ones of `Codes`, and none of them contains
      an earlier one. */
  lemma CodeNamesApart(reps: seq<(string, string)>)
    requires |reps| == 8
    requires reps[0].0 == "%Y" && reps[1].0 == "%y" && reps[2].0 == "%m" && reps[3].0 == "%d"
    requires reps[4].0 == "%H" && reps[5].0 == "%M" && reps[6].0 == "%S" && reps[7].0 == "%channel"
    ensures IsCodeList(reps)
    ensures forall i, j :: 0 <= j < i < 8 ==> !Contains(reps[i].0, reps[j].0)
  {
    forall i, j | 0 <= j < i < 8
      ensures !Contains(reps[i].0, reps[j].0)
    {
      OnlyLeading(reps[i].0, reps[j].0, '%');
    }
  }

  /** The date and time values are digits only. */
  lemma CodeValuesPlain(now: DateTime, channel: string)
    ensures forall i :: 0 <= i < 7 ==> '%' !in Codes(now, channel)[i].1
  {
    var reps := Codes(now, channel);
    Pad2Value(now.month);
    Pad2Value(now.day);
    Pad2Value(now.hour);
    Pad2Value(now.minute);
    Pad2Value(now.second);
    assert forall i :: 0 <= i < 7 ==> AllDigits(reps[i].1);
  }

  /** No `{` has a `}` somewhere after it: the text holds no complete group. */
  predicate NoGroup(s: string)
  {
    forall i, j :: 0 <= i < j < |s| && s[i] == '{' ==> s[j] != '}'
  }

  /** Where `re.search('{[^}]*?}', s)` matches: the first `{` and the first `}`
      after it. There is no match exactly when the text holds no group. */
  function FindGroup(s: string): (r: Option<(nat, nat)>)
    ensures r.Some? ==> r.value.0 < r.value.1 < |s| && s[r.value.0] == '{' && s[r.value.1] == '}'
    ensures r.Some? ==> '{' !in s[..r.value.0] && '}' !in s[r.value.0 + 1..r.value.1]
    ensures r.None? <==> NoGroup(s)
  {
    match IndexFrom(s, '{', 0)
    case None => None
    case Some(i) =>
      match IndexFrom(s, '}', i + 1)
      case None => None
      case Some(j) => Some((i, j))
  }

  /** `re.sub('{[^}]*?}', repl_func, s)`: every group, left to right, is
      replaced by its `GroupText`; the text between groups is kept. */
  function ExpandGroups(s: string, now: DateTime, channel: string): string
    decreases |s|
  {
    match FindGroup(s)
    case None => s
    case Some((i, j)) =>
      s[..i] + GroupText(s[i..j + 1], now, channel) + ExpandGroups(s[j + 1..], now, channel)
  }

  /** Text without a complete group, such as `a{b` or `a}b{c`, is left as it
      is. */
  lemma ExpandGroupsLiteral(s: string, now: DateTime, channel: string)
    requires NoGroup(s)
    ensures ExpandGroups(s, now, channel) == s
  {
  }

  /** Text without a `{` holds no group. */
  lemma NoBraceNoGroup(s: string)
    requires '{' !in s
    ensures NoGroup(s)
  {
  }

  /** Literal text before the first group is kept, the group loses its braces
      and has its codes replaced, and the rest is expanded in turn. */
  lemma ExpandGroupsStep(lit: string, inner: string, rest: string, now: DateTime, channel: string)
    requires '{' !in lit && '}' !in inner
    ensures ExpandGroups(lit + "{" + inner + "}" + rest, now, channel)
         == lit + ReplaceEach(inner, Codes(now, channel)) + ExpandGroups(rest, now, channel)
  {
    var s := lit + "{" + inner + "}" + rest;
    var i, j := |lit|, |lit| + 1 + |inner|;
    assert s[i] == '{' && s[j] == '}';
    var g := FindGroup(s);
    assert g.Some? && g.value.0 == i by {
      var r := IndexFrom(s, '{', 0);
      assert r.Some?;
      assert forall t :: 0 <= t < i ==> s[t] == lit[t];
    }
    assert g.value.1 == j by {
      var r := IndexFrom(s, '}', i + 1);
      assert r.Some?;
      assert forall t :: i + 1 <= t < j ==> s[t] == inner[t - i - 1];
    }
    assert s[..i] == lit;
    assert s[i..j + 1] == "{" + inner + "}";
    assert s[j + 1..] == rest;
    GroupTextOfBraces(inner, now, channel);
  }

  /** The name a template stands for before any suffix: `{channel}` first,
      then every group. */
  function Expanded(template: string, channel: string, now: DateTime): string
  {
    ExpandGroups(ReplaceAll(template, "{channel}", channel), now, channel)
  }

  /** Every `{channel}` of the template becomes the channel text before the
      groups are expanded. */
  lemma ChannelEverywhere(parts: seq<string>, channel: string, now: DateTime)
    requires forall i :: 0 <= i < |parts| ==> !Contains(parts[i], "{channel}")
    ensures Expanded(Join(parts, "{channel}"), channel, now)
         == ExpandGroups(Join(parts, channel), now, channel)
  {
    assert HeadUnique("{channel}");
    ReplaceEvery(parts, "{channel}", channel);
  }

  /** A date written without `%`, as in `capture_{Y}{m}{d}_{channel}.avi`
      with channel `5`, gives the bare letters: `capture_Ymd_5.avi`. */
  lemma LettersWithoutPercent(lit: string, channel: string, tail: string, now: DateTime)
    requires '{' !in lit && '{' !in channel && '{' !in tail
    ensures Expanded(lit + "{Y}{m}{d}_" + "{channel}" + tail, channel, now)
         == lit + "Ymd_" + channel + tail
  {
    var groups := "{Y}{m}{d}_";
    if Contains(groups, "{channel}") {
      ContainsChar(groups, "{channel}", 2);
    }
    NotContainsAfterPlain(lit, groups, "{channel}");
    ChannelAfterFront(lit + groups, channel, tail, now);
    LetterGroups(lit, channel + tail, now, channel);
    Assoc(lit + groups, channel, tail);
    Assoc(lit + "Ymd_", channel, tail);
  }

  /** Concatenation regrouped. */
  lemma Assoc(a: string, b: string, c: string)
    ensures a + b + c == a + (b + c)
  {
  }

  /** The `{channel}` after a front without it becomes the channel text. */
  lemma ChannelAfterFront(front: string, channel: string, tail: string, now: DateTime)
    requires !Contains(front, "{channel}") && '{' !in tail
    ensures Expanded(front + "{channel}" + tail, channel, now) == ExpandGroups(front + channel + tail, now, channel)
  {
    if Contains(tail, "{channel}") {
      ContainsHead(tail, "{channel}");
    }
    ChannelEverywhere([front, tail], channel, now);
  }

  /** `{Y}{m}{d}_` after literal text becomes `Ymd_`. */
  lemma LetterGroups(lit: string, rest: string, now: DateTime, channel: string)
    requires '{' !in lit && '{' !in rest
    ensures ExpandGroups(lit + "{Y}{m}{d}_" + rest, now, channel) == lit + "Ymd_" + rest
  {
    var r2 := "" + "{" + "d" + "}" + ("_" + rest);
    var r1 := "" + "{" + "m" + "}" + r2;
    LetterGroupsText(lit, rest);
    PlainGroup(lit, "Y", r1, now, channel);
    PlainGroup("", "m", r2, now, channel);
    PlainGroup("", "d", "_" + rest, now, channel);
    NoBraceNoGroup("_" + rest);
    ExpandGroupsLiteral("_" + rest, now, channel);
  }

  /** How `{Y}{m}{d}_` and `Ymd_` split into their groups and letters. */
  lemma LetterGroupsText(lit: string, rest: string)
    ensures lit + "{Y}{m}{d}_" + rest
         == lit + "{" + "Y" + "}" + ("" + "{" + "m" + "}" + ("" + "{" + "d" + "}" + ("_" + rest)))
    ensures lit + "Ymd_" + rest == lit + "Y" + ("" + "m" + ("" + "d" + ("_" + rest)))
  {
  }

  /** A group without a code, after literal text, loses its braces. */
  lemma PlainGroup(lit: string, inner: string, rest: string, now: DateTime, channel: string)
    requires '{' !in lit && '%' !in inner && '}' !in inner
    ensures ExpandGroups(lit + "{" + inner + "}" + rest, now, channel)
         == lit + inner + ExpandGroups(rest, now, channel)
  {
    ExpandGroupsStep(lit, inner, rest, now, channel);
    ReplaceEachNoCode(inner, Codes(now, channel));
  }

  /** With `%`, the year is printed: `rec_{%Y}_{channel}.avi` with channel
      `5` gives `rec_<year>_5.avi`. */
  lemma YearAndChannel(lit: string, channel: string, tail: string, now: DateTime)
    requires '{' !in lit && '{' !in channel && '{' !in tail
    ensures Expanded(lit + "{%Y}_" + "{channel}" + tail, channel, now)
         == lit + NatToString(now.year) + "_" + channel + tail
  {
    var group := "{%Y}_";
    NotContainsAfterPlain(lit, group, "{channel}");
    ChannelAfterFront(lit + group, channel, tail, now);
    YearGroup(lit, channel + tail, now, channel);
    Assoc(lit + group, channel, tail);
    Assoc(lit + NatToString(now.year) + "_", channel, tail);
  }

  /** `{%Y}_` after literal text becomes the year and `_`. */
  lemma YearGroup(lit: string, rest: string, now: DateTime, channel: string)
    requires '{' !in lit && '{' !in rest
    ensures ExpandGroups(lit + "{%Y}_" + rest, now, channel) == lit + NatToString(now.year) + "_" + rest
  {
    var reps := Codes(now, channel);
    CodesApart(now, channel);
    ReplaceEachSingle(reps, 0);
    YearGroupText(lit, rest, NatToString(now.year));
    ExpandGroupsStep(lit, "%Y", "_" + rest, now, channel);
    NoBraceNoGroup("_" + rest);
    ExpandGroupsLiteral("_" + rest, now, channel);
  }

  /** How `{%Y}_` splits into its group and the rest. */
  lemma YearGroupText(lit: string, rest: string, year: string)
    ensures lit + "{%Y}_" + rest == lit + "{" + "%Y" + "}" + ("_" + rest)
    ensures lit + year + "_" + rest == lit + year + ("_" + rest)
  {
  }

  /** A template with one `{channel}` and no other brace group names the
      channel in its place: `rec_{channel}.avi` with channel `5` gives
      `rec_5.avi`. */
  lemma ChannelOnly(a: string, b: string, channel: string, now: DateTime)
    requires '{' !in a && '{' !in b && '{' !in channel
    ensures Expanded(a + "{channel}" + b, channel, now) == a + channel + b
  {
    ReplaceKeepsPlain(a, "{channel}" + b, "{channel}", channel);
    ReplaceAtHead(b, "{channel}", channel);
    if Contains(b, "{channel}") {
      ContainsHead(b, "{channel}");
    }
    ReplaceAbsent(b, "{channel}", channel);
    assert a + "{channel}" + b == a + ("{channel}" + b);
    ExpandGroupsLiteral(a + channel + b, now, channel);
  }

  // ---------------------------------------------------------------------------
  // the _N suffix
  // ---------------------------------------------------------------------------

  /** The name the suffix loop builds on its round `k`, built the way the loop
      builds it: split on `.`, tag the last piece before the extension with
      `_k`, join again. */
  function Suffixed(name: string, k: nat): string
  {
    var parts := Split(name, '.');
    var stem := if |parts| > 1 then parts[..|parts| - 1] else parts;
    var ext := if |parts| > 1 then [parts[|parts| - 1]] else [];
    var tagged := stem[..|stem| - 1] + [stem[|stem| - 1] + ("_" + NatToString(k))];
    Join(tagged + ext, ".")
  }

  /** The last `.` of `a.e`, where `e` has none, is the one after `a`. */
  lemma {:induction false} LastDotBeforeExtension(a: string, e: string)
    requires '.' !in e
    ensures LastIndex(a + "." + e, '.') == Some(|a|)
    decreases |e|
  {
    var s := a + "." + e;
    if |e| > 0 {
      var e' := e[..|e| - 1];
      assert s[|s| - 1] == e[|e| - 1];
      assert s[..|s| - 1] == a + "." + e';
      LastDotBeforeExtension(a, e');
    }
  }

  /** The source's split-and-join, on a name with at least one `.`. */
  lemma SuffixedWithExtension(name: string, z: string, parts: seq<string>)
    requires parts == Split(name, '.') && |parts| > 1
    ensures var stem := parts[..|parts| - 1];
      Join(stem[..|stem| - 1] + [stem[|stem| - 1] + z] + [parts[|parts| - 1]], ".")
        == Join(stem, ".") + z + "." + parts[|parts| - 1]
      && name == Join(stem, ".") + "." + parts[|parts| - 1]
  {
    var n := |parts|;
    var stem := parts[..n - 1];
    var e := parts[n - 1];
    var tagged := stem[..|stem| - 1] + [stem[|stem| - 1] + z];
    JoinSplit(name, '.');
    JoinExtendLast(stem, z, ".");
    JoinSnoc(tagged, e, ".");
    JoinSnoc(stem, e, ".");
    assert stem + [e] == parts;
  }

  /** `_k` goes in front of the last `.` of the whole path, or at the end when
      the path has no `.`. */
  lemma SuffixedAtLastDot(name: string, k: nat)
    ensures LastIndex(name, '.').None? ==> Suffixed(name, k) == name + "_" + NatToString(k)
    ensures LastIndex(name, '.').Some? ==>
      var i := LastIndex(name, '.').value;
      Suffixed(name, k) == name[..i] + "_" + NatToString(k) + name[i..]
  {
    var parts := Split(name, '.');
    var z := "_" + NatToString(k);
    if |parts| == 1 {
      JoinSplit(name, '.');
      assert name == parts[0];
      assert parts[..0] + [parts[0] + z] == [name + z];
      assert name + z == name + "_" + NatToString(k);
    } else {
      SuffixedWithExtension(name, z, parts);
      var a := Join(parts[..|parts| - 1], ".");
      var e := parts[|parts| - 1];
      LastDotBeforeExtension(a, e);
      var stem := parts[..|parts| - 1];
      assert Suffixed(name, k)
          == Join(stem[..|stem| - 1] + [stem[|stem| - 1] + z] + [e], ".")
          == a + z + "." + e;
      InsertBeforeDot(name, a, e, "_", NatToString(k));
    }
  }

  /** Text put in front of the `.` that follows `a` in `a.e`. */
  lemma InsertBeforeDot(name: string, a: string, e: string, z1: string, z2: string)
    requires name == a + "." + e
    ensures |a| <= |name| && name[..|a|] + z1 + z2 + name[|a|..] == a + (z1 + z2) + "." + e
  {
    assert name[..|a|] == a;
    assert name[|a|..] == "." + e;
  }

  /** The names the loop tries: the name itself, then the suffixed ones. */
  function ProbeName(name: string, k: nat): string
  {
    if k == 0 then name else Suffixed(name, k)
  }

  /** No two rounds of the loop try the same name. */
  lemma ProbeNameInjective(name: string, j: nat, k: nat)
    requires ProbeName(name, j) == ProbeName(name, k)
    ensures j == k
  {
    SuffixedAtLastDot(name, j);
    SuffixedAtLastDot(name, k);
    if j != 0 && k != 0 {
      var a, b := NatToString(j), NatToString(k);
      if LastIndex(name, '.').None? {
        assert name + "_" + a == name + "_" + a + "";
        assert name + "_" + b == name + "_" + b + "";
        InsertInjective(name + "_", "", a, b);
      } else {
        var i := LastIndex(name, '.').value;
        InsertInjective(name[..i] + "_", name[i..], a, b);
      }
      NatToStringInjective(j, k);
    }
  }

  /** Two texts that differ only in the middle are equal only if their middles are. */
  lemma InsertInjective(x: string, y: string, a: string, b: string)
    requires x + a + y == x + b + y
    ensures a == b
  {
    assert |a| == |b|;
    assert (x + a + y)[|x|..|x| + |a|] == a;
    assert (x + b + y)[|x|..|x| + |b|] == b;
  }

  /** The names tried before round `k`. */
  function ProbesBefore(name: string, k: nat): set<string>
  {
    set j | 0 <= j < k :: ProbeName(name, j)
  }

  /** A round that finds its name taken leaves one name fewer to try. */
  lemma ProbesStep(name: string, existing: set<string>, k: nat)
    requires ProbeName(name, k) in existing
    ensures existing - ProbesBefore(name, k + 1) < existing - ProbesBefore(name, k)
  {
    assert ProbesBefore(name, k + 1) == ProbesBefore(name, k) + {ProbeName(name, k)};
    if ProbeName(name, k) in ProbesBefore(name, k) {
      var j :| 0 <= j < k && ProbeName(name, j) == ProbeName(name, k);
      ProbeNameInjective(name, j, k);
    }
  }

  /** The first round, from `k` on, whose name does not exist. It exists
      because only finitely many paths exist. */
  function FirstFreeProbe(name: string, existing: set<string>, k: nat): (r: nat)
    requires forall j :: 0 <= j < k ==> ProbeName(name, j) in existing
    ensures k <= r && ProbeName(name, r) !in existing
    ensures forall j :: 0 <= j < r ==> ProbeName(name, j) in existing
    decreases existing - ProbesBefore(name, k)
  {
    if ProbeName(name, k) !in existing then k
    else
      ProbesStep(name, existing, k);
      FirstFreeProbe(name, existing, k + 1)
  }

  /** The name `make_filename` returns. */
  function MadeFilename(template: string, channel: string, now: DateTime,
                        existing: set<string>, appendSuffix: bool): string
  {
    var name := Expanded(template, channel, now);
    if appendSuffix then ProbeName(name, FirstFreeProbe(name, existing, 0)) else name
  }

  /** `make_filename`: expand the template; with `appendSuffix`, try `name`,
      `name_1`, `name_2`, ... and return the first one that does not exist. */
  method MakeFilename(template: string, channelText: string, now: DateTime,
                      existing: set<string>, appendSuffix: bool) returns (name: string)
    ensures name == MadeFilename(template, channelText, now, existing, appendSuffix)
    ensures !appendSuffix ==> name == Expanded(template, channelText, now)
    ensures appendSuffix ==> name !in existing
    ensures appendSuffix && Expanded(template, channelText, now) !in existing ==>
              name == Expanded(template, channelText, now)
  {
    var newName := ReplaceAll(template, "{channel}", channelText);
    newName := ExpandGroups(newName, now, channelText);
    name := newName;
    if appendSuffix {
      var suffix: nat := 1;
      var appended := newName;
      while appended in existing
        invariant suffix >= 1
        invariant appended == ProbeName(newName, suffix - 1)
        invariant forall j :: 0 <= j < suffix - 1 ==> ProbeName(newName, j) in existing
        decreases existing - ProbesBefore(newName, suffix - 1)
      {
        ProbesStep(newName, existing, suffix - 1);
        var parts := Split(newName, '.');
        var stem, ext;
        if |parts| > 1 {
          stem, ext := parts[..|parts| - 1], [parts[|parts| - 1]];
        } else {
          stem, ext := parts, [];
        }
        stem := stem[..|stem| - 1] + [stem[|stem| - 1] + ("_" + NatToString(suffix))];
        appended := Join(stem + ext, ".");
        suffix := suffix + 1;
      }
      name := appended;
      var first := FirstFreeProbe(newName, existing, 0);
      assert first >= suffix - 1;
      assert first <= suffix - 1;
    }
  }

  // ---------------------------------------------------------------------------
  // secs_to_str
  // ---------------------------------------------------------------------------

  /** `secs_to_str`: seconds as `hh:mm:ss`, hours not capped at 99. */
  function SecsToStr(seconds: nat): string
  {
    Hms(seconds / 60 / 60, (seconds / 60) % 60, seconds % 60)
  }

  /** The three fields of `secs_to_str` read back as hours, minutes below 60
      and seconds below 60 that add up to the input. */
  lemma SecsToStrFields(seconds: nat)
    ensures var parts := Split(SecsToStr(seconds), ':');
      |parts| == 3
      && IsPad2Of(parts[0], seconds / 3600) && IsPad2Of(parts[1], seconds / 60 % 60)
      && IsPad2Of(parts[2], seconds % 60)
      && DigitsValue(parts[0]) * 3600 + DigitsValue(parts[1]) * 60 + DigitsValue(parts[2]) == seconds
  {
    var m := seconds / 60;
    HmsFields(m / 60, m % 60, seconds % 60);
    assert seconds == m * 60 + seconds % 60;
    assert m == (m / 60) * 60 + m % 60;
    assert seconds == (m / 60) * 3600 + (m % 60) * 60 + seconds % 60;
    assert m / 60 == seconds / 3600;
  }
}
