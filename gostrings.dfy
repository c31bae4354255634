/**
 * The Go standard-library string operations the BOM tool relies on:
 * `strings.Split` and `strings.Join` with a one-character separator,
 * `strings.Contains`, `strings.Trim` with a one-character cut set, and the
 * line splitting done by `bufio.Scanner` with its default `ScanLines`.
 * Go strings are byte strings; here a character stands for a byte.
 */
module GoStrings {

  /** Number of occurrences of `c` in `s`. */
  function Count(s: string, c: char): nat {
    if s == [] then 0 else (if s[0] == c then 1 else 0) + Count(s[1..], c)
  }

  /** A character that occurs is counted. */
  lemma {:induction false} CountMember(s: string, c: char)
    requires c in s
    ensures Count(s, c) >= 1
    decreases |s|
  {
    if s[0] != c {
      assert c in s[1..];
      CountMember(s[1..], c);
    }
  }

  /**
   * `strings.Split(s, sep)`: the pieces between the separators. There is
   * always one more field than there are separators, so "" gives [""].
   */
  function Split(s: string, sep: char): (fields: seq<string>)
    ensures |fields| == Count(s, sep) + 1
    decreases |s|
  {
    if s == [] then [""]
    else
      var rest := Split(s[1..], sep);
      if s[0] == sep then [""] + rest
      else [[s[0]] + rest[0]] + rest[1..]
  }

  /**
   * `strings.Join(parts, sep)`: the parts in order, a separator between
   * each two, so the first part begins the result.
   */
  function Join(parts: seq<string>, sep: char): (joined: string)
    ensures |parts| >= 1 ==> HasPrefix(joined, parts[0])
    ensures |parts| >= 2 ==> |parts[0]| < |joined| && joined[|parts[0]|] == sep
  {
    if |parts| == 0 then ""
    else if |parts| == 1 then parts[0]
    else parts[0] + [sep] + Join(parts[1..], sep)
  }

  lemma {:induction false} SplitFieldsHaveNoSeparator(s: string, sep: char)
    ensures forall i :: 0 <= i < |Split(s, sep)| ==> sep !in Split(s, sep)[i]
    decreases |s|
  {
    if s != [] {
      SplitFieldsHaveNoSeparator(s[1..], sep);
    }
  }

  /** Joining the fields again gives back the original string. */
  lemma {:induction false} JoinSplit(s: string, sep: char)
    ensures Join(Split(s, sep), sep) == s
    decreases |s|
  {
    if s != [] {
      var rest := Split(s[1..], sep);
      JoinSplit(s[1..], sep);
      if s[0] == sep {
        assert Split(s, sep) == [""] + rest;
        assert ([""] + rest)[1..] == rest;
      } else if |rest| == 1 {
        assert Split(s, sep) == [[s[0]] + rest[0]];
      } else {
        var fields := Split(s, sep);
        assert fields[1..] == rest[1..];
        assert Join(rest, sep) == rest[0] + [sep] + Join(rest[1..], sep);
      }
    }
  }

  /** A string without the separator is a single field. */
  lemma {:induction false} SplitWithoutSeparator(a: string, sep: char)
    requires sep !in a
    ensures Split(a, sep) == [a]
    decreases |a|
  {
    if a != [] {
      SplitWithoutSeparator(a[1..], sep);
      assert [a[0]] + a[1..] == a;
    }
  }

  /** The text before the first separator is the first field. */
  lemma {:induction false} SplitAtFirstSeparator(a: string, sep: char, b: string)
    requires sep !in a
    ensures Split(a + [sep] + b, sep) == [a] + Split(b, sep)
    decreases |a|
  {
    if a == [] {
      assert a + [sep] + b == [sep] + b;
      assert ([sep] + b)[1..] == b;
    } else {
      SplitAtFirstSeparator(a[1..], sep, b);
      assert (a + [sep] + b)[1..] == a[1..] + [sep] + b;
      assert [a[0]] + a[1..] == a;
    }
  }

  /** Splitting a join of separator-free parts gives the parts back. */
  lemma {:induction false} SplitJoin(parts: seq<string>, sep: char)
    requires |parts| >= 1
    requires forall i :: 0 <= i < |parts| ==> sep !in parts[i]
    ensures Split(Join(parts, sep), sep) == parts
    decreases |parts|
  {
    if |parts| == 1 {
      SplitWithoutSeparator(parts[0], sep);
    } else {
      SplitJoin(parts[1..], sep);
      SplitAtFirstSeparator(parts[0], sep, Join(parts[1..], sep));
      assert [parts[0]] + parts[1..] == parts;
    }
  }

  /** Joining the first field with the join of the others restores the whole join. */
  lemma JoinFirst(parts: seq<string>, sep: char)
    requires |parts| >= 2
    ensures Join(parts, sep) == parts[0] + [sep] + Join(parts[1..], sep)
  {
  }

  /**
   * The first two fields and the separator between them begin the string,
   * and are all of it exactly when there are just two fields; otherwise a
   * separator follows them.
   */
  lemma SplitFirstTwoFields(s: string, sep: char)
    requires Count(s, sep) >= 1
    ensures var f := Split(s, sep);
      && HasPrefix(s, f[0] + [sep] + f[1])
      && (s == f[0] + [sep] + f[1] <==> |f| == 2)
      && (|f| > 2 ==> |f[0]| + 1 + |f[1]| < |s| && s[|f[0]| + 1 + |f[1]|] == sep)
  {
    var f := Split(s, sep);
    var head := f[0] + [sep] + f[1];
    JoinSplit(s, sep);
    JoinFirst(f, sep);
    if |f| == 2 {
      assert f[1..] == [f[1]];
    } else {
      JoinFirst(f[1..], sep);
      assert f[1..][1..] == f[2..];
      assert s == head + [sep] + Join(f[2..], sep);
    }
  }

  predicate HasPrefix(s: string, prefix: string) {
    |prefix| <= |s| && s[..|prefix|] == prefix
  }

  /** `strings.Contains(s, sub)`; every string contains "", and no string contains a longer one. */
  predicate Contains(s: string, sub: string)
    ensures Contains(s, sub) ==> |sub| <= |s|
    ensures |sub| <= |s| && s[..|sub|] == sub ==> Contains(s, sub)
    decreases |s|
  {
    HasPrefix(s, sub) || (s != [] && Contains(s[1..], sub))
  }

  /** `sub` occurs in `s` at position `i`. */
  predicate OccursAt(s: string, sub: string, i: int) {
    0 <= i && i + |sub| <= |s| && s[i..i + |sub|] == sub
  }

  /** `Contains` holds exactly when `sub` occurs somewhere in `s`. */
  lemma {:induction false} ContainsIffOccurs(s: string, sub: string)
    ensures Contains(s, sub) <==> exists i :: OccursAt(s, sub, i)
    decreases |s|
  {
    if HasPrefix(s, sub) {
      assert OccursAt(s, sub, 0);
    } else if s == [] {
      assert sub != [];
      assert forall i :: !OccursAt(s, sub, i);
    } else {
      ContainsIffOccurs(s[1..], sub);
      forall i | OccursAt(s[1..], sub, i) ensures OccursAt(s, sub, i + 1) {
        assert s[1..][i..i + |sub|] == s[i + 1..i + 1 + |sub|];
      }
      forall i | OccursAt(s, sub, i) ensures OccursAt(s[1..], sub, i - 1) {
        assert !OccursAt(s, sub, 0);
        assert s[1..][i - 1..i - 1 + |sub|] == s[i..i + |sub|];
      }
    }
  }

  function TrimLeft(s: string, cut: char): string
    decreases |s|
  {
    if s != [] && s[0] == cut then TrimLeft(s[1..], cut) else s
  }

  function TrimRight(s: string, cut: char): string
    decreases |s|
  {
    if s != [] && s[|s| - 1] == cut then TrimRight(s[..|s| - 1], cut) else s
  }

  /**
   * `strings.Trim(s, cutset)` for a one-character cut set: no longer than
   * `s`, and it neither starts nor ends with `cut`.
   */
  function Trim(s: string, cut: char): (trimmed: string)
    ensures |trimmed| <= |s|
    ensures trimmed == [] || (trimmed[0] != cut && trimmed[|trimmed| - 1] != cut)
  {
    TrimLeftIsSuffix(s, cut);
    TrimRightIsPrefix(TrimLeft(s, cut), cut);
    var l := TrimLeft(s, cut);
    var r := TrimRight(l, cut);
    assert r != [] ==> r[0] == l[0];
    r
  }

  predicate AllEqual(s: string, c: char) {
    forall i :: 0 <= i < |s| ==> s[i] == c
  }

  /** The left trim drops a run of `cut` and keeps the rest untouched. */
  lemma {:induction false} TrimLeftIsSuffix(s: string, cut: char)
    ensures var r := TrimLeft(s, cut);
      && |r| <= |s| && r == s[|s| - |r|..]
      && AllEqual(s[..|s| - |r|], cut)
      && (r == [] || r[0] != cut)
    decreases |s|
  {
    if s != [] && s[0] == cut {
      TrimLeftIsSuffix(s[1..], cut);
      var r := TrimLeft(s, cut);
      assert s[1..][|s| - 1 - |r|..] == s[|s| - |r|..];
      assert forall i :: 1 <= i < |s| - |r| ==> s[i] == s[1..][..|s| - 1 - |r|][i - 1];
    }
  }

  /** The right trim drops a run of `cut` and keeps the rest untouched. */
  lemma {:induction false} TrimRightIsPrefix(s: string, cut: char)
    ensures var r := TrimRight(s, cut);
      && |r| <= |s| && r == s[..|r|]
      && AllEqual(s[|r|..], cut)
      && (r == [] || r[|r| - 1] != cut)
    decreases |s|
  {
    if s != [] && s[|s| - 1] == cut {
      var p := s[..|s| - 1];
      TrimRightIsPrefix(p, cut);
      var r := TrimRight(s, cut);
      assert p[..|r|] == s[..|r|];
      assert forall i :: |r| <= i < |s| - 1 ==> s[i] == p[|r|..][i - |r|];
    }
  }

  /**
   * `Trim` keeps the middle slice `s[i..j]` of `s`: everything cut off is
   * `cut`, and the kept text neither starts nor ends with `cut`.
   */
  lemma TrimIsMiddle(s: string, cut: char) returns (i: nat, j: nat)
    ensures i <= j <= |s| && Trim(s, cut) == s[i..j]
    ensures AllEqual(s[..i], cut) && AllEqual(s[j..], cut)
    ensures Trim(s, cut) == [] || (Trim(s, cut)[0] != cut && Trim(s, cut)[|Trim(s, cut)| - 1] != cut)
  {
    var l := TrimLeft(s, cut);
    TrimLeftIsSuffix(s, cut);
    TrimRightIsPrefix(l, cut);
    var r := TrimRight(l, cut);
    i := |s| - |l|;
    j := i + |r|;
    assert s[i..j] == l[..|r|];
    assert forall k :: j <= k < |s| ==> s[k] == l[|r|..][k - j];
    if r != [] && l != [] {
      assert r[0] == l[0];
    }
  }

  /** A trailing carriage return is dropped from a scanned line. */
  function DropCR(line: string): string {
    if line != [] && line[|line| - 1] == '\r' then line[..|line| - 1] else line
  }

  /** The last field is empty exactly when the string ends with the separator. */
  lemma {:induction false} SplitLastField(s: string, sep: char)
    requires s != []
    ensures var f := Split(s, sep);
      f[|f| - 1] == "" <==> s[|s| - 1] == sep
    decreases |s|
  {
    var rest := s[1..];
    if rest != [] {
      SplitLastField(rest, sep);
      assert s[|s| - 1] == rest[|rest| - 1];
      if s[0] != sep && |Split(rest, sep)| == 1 {
        if sep in rest {
          CountMember(rest, sep);
        }
        assert rest[|rest| - 1] in rest;
      }
    }
  }

  /**
   * The tokens `bufio.Scanner` yields with `ScanLines`: the text split at
   * newlines, each with a trailing carriage return dropped, where a final
   * newline does not start an empty last line and "" has no lines. So a
   * non-empty text has one line per newline, plus one when it does not end
   * in a newline.
   */
  function Lines(text: string): (lines: seq<string>)
    ensures text == [] ==> lines == []
    ensures text != [] ==> |lines| >= 1
    ensures text != [] && text[|text| - 1] == '\n' ==> |lines| == Count(text, '\n')
    ensures text != [] && text[|text| - 1] != '\n' ==> |lines| == Count(text, '\n') + 1
    ensures forall i :: 0 <= i < |lines| ==> lines[i] == DropCR(Split(text, '\n')[i])
  {
    if text == [] then []
    else
      var segs := Split(text, '\n');
      SplitLastField(text, '\n');
      JoinSplit(text, '\n');
      var kept := if segs[|segs| - 1] == "" then segs[..|segs| - 1] else segs;
      seq(|kept|, i requires 0 <= i < |kept| => DropCR(kept[i]))
  }
}
