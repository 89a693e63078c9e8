/** Text operations the scripts take from Python's `str` type, restricted to
    what the models need: ASCII case folding, whitespace stripping, splitting
    and joining on one separator character, substring search and decimal
    formatting of integers (as an f-string prints them). */
module Strings {

  datatype Option<T> = None | Some(value: T)

  /** `str.isspace()` for the characters below 128: tab, newline, vertical tab,
      form feed, carriage return, the four information separators and space. */
  predicate IsSpace(c: char) {
    c == ' ' || ('\t' <= c <= '\r') || ('\U{1c}' <= c <= '\U{1f}')
  }

  predicate AllSpace(s: string) {
    forall i :: 0 <= i < |s| ==> IsSpace(s[i])
  }

  function LowerChar(c: char): char {
    if 'A' <= c <= 'Z' then (c as int + 32) as char else c
  }

  /** `str.lower()` on ASCII letters; every other character is kept. */
  function Lower(s: string): (r: string)
    ensures |r| == |s|
    ensures forall i :: 0 <= i < |s| ==> r[i] == LowerChar(s[i])
  {
    seq(|s|, i requires 0 <= i < |s| => LowerChar(s[i]))
  }

  /** Folding leaves no capital letter, turns each capital into its small
      letter and keeps every other character. */
  lemma LowerFolds(s: string)
    ensures forall i :: 0 <= i < |s| ==> !('A' <= Lower(s)[i] <= 'Z')
    ensures forall i :: 0 <= i < |s| && 'A' <= s[i] <= 'Z' ==> 'a' <= Lower(s)[i] <= 'z' && Lower(s)[i] as int == s[i] as int + 32
    ensures forall i :: 0 <= i < |s| && !('A' <= s[i] <= 'Z') ==> Lower(s)[i] == s[i]
  {
  }

  lemma LowerIdempotent(s: string)
    ensures Lower(Lower(s)) == Lower(s)
  {
    assert forall i :: 0 <= i < |s| ==> LowerChar(LowerChar(s[i])) == LowerChar(s[i]);
  }

  // ---------------------------------------------------------------------
  // Substring search

  predicate IsPrefix(p: string, s: string) {
    |p| <= |s| && s[..|p|] == p
  }

  /** `sub in s` */
  predicate Contains(s: string, sub: string)
    decreases |s|
  {
    IsPrefix(sub, s) || (|s| > 0 && Contains(s[1..], sub))
  }

  /** A slice of a slice is a slice of the whole. */
  lemma SliceOfSlice<T>(s: seq<T>, a: nat, b: nat, c: nat, d: nat)
    requires a <= b <= |s| && c <= d <= b - a
    ensures s[a..b][c..d] == s[a + c..a + d]
  {
    forall t | 0 <= t < d - c
      ensures s[a..b][c..d][t] == s[a + c..a + d][t]
    {
      assert s[a..b][c..d][t] == s[a..b][c + t];
    }
  }

  /** The index of the first occurrence of `sub` in `s`, if any. */
  function Find(s: string, sub: string): (r: Option<nat>)
    decreases |s|
    ensures r.Some? ==> r.value + |sub| <= |s| && s[r.value..r.value + |sub|] == sub
    ensures r.Some? ==> forall j :: 0 <= j < r.value ==> !IsPrefix(sub, s[j..])
    ensures r.None? ==> forall j :: 0 <= j <= |s| ==> !IsPrefix(sub, s[j..])
  {
    if IsPrefix(sub, s) then Some(0)
    else if |s| == 0 then None
    else match Find(s[1..], sub)
      case None =>
        assert forall j :: 1 <= j <= |s| ==> s[j..] == s[1..][j - 1..];
        None
      case Some(k) =>
        assert forall j :: 1 <= j <= k ==> s[j..] == s[1..][j - 1..];
        SliceOfSlice(s, 1, |s|, k, k + |sub|);
        Some(k + 1)
  }

  lemma {:induction false} ContainsIffFind(s: string, sub: string)
    ensures Contains(s, sub) <==> Find(s, sub).Some?
    decreases |s|
  {
    if !IsPrefix(sub, s) && |s| > 0 {
      ContainsIffFind(s[1..], sub);
    }
  }

  /** `sub in s` holds exactly when `sub` sits at some position of `s`. */
  lemma ContainsAt(s: string, sub: string)
    ensures Contains(s, sub) <==> exists j :: 0 <= j <= |s| && IsPrefix(sub, s[j..])
  {
    ContainsIffFind(s, sub);
    if Find(s, sub).Some? {
      var k := Find(s, sub).value;
      assert s[k..][..|sub|] == sub;
      assert IsPrefix(sub, s[k..]);
    }
  }

  lemma {:induction false} ContainsEmpty(s: string)
    ensures Contains(s, "")
  {
    assert IsPrefix("", s);
  }

  // ---------------------------------------------------------------------
  // Stripping

  function LStrip(s: string): (r: string)
    decreases |s|
  {
    if |s| > 0 && IsSpace(s[0]) then LStrip(s[1..]) else s
  }

  function RStrip(s: string): (r: string)
    decreases |s|
  {
    if |s| > 0 && IsSpace(s[|s| - 1]) then RStrip(s[..|s| - 1]) else s
  }

  /** `str.strip()` with no argument. */
  function Strip(s: string): string {
    RStrip(LStrip(s))
  }

  /** `s.lstrip()` drops exactly the leading whitespace. */
  lemma {:induction false} LStripShape(s: string)
    ensures |LStrip(s)| <= |s| && LStrip(s) == s[|s| - |LStrip(s)|..]
    ensures AllSpace(s[..|s| - |LStrip(s)|])
    ensures LStrip(s) == [] || !IsSpace(LStrip(s)[0])
    decreases |s|
  {
    if |s| > 0 && IsSpace(s[0]) {
      LStripShape(s[1..]);
      var i := |s| - |LStrip(s)|;
      assert s[1..][i - 1..] == s[i..];
      assert s[..i] == [s[0]] + s[1..][..i - 1];
    }
  }

  /** `s.rstrip()` drops exactly the trailing whitespace. */
  lemma {:induction false} RStripShape(s: string)
    ensures |RStrip(s)| <= |s| && RStrip(s) == s[..|RStrip(s)|]
    ensures AllSpace(s[|RStrip(s)|..])
    ensures RStrip(s) == [] || !IsSpace(RStrip(s)[|RStrip(s)| - 1])
    decreases |s|
  {
    if |s| > 0 && IsSpace(s[|s| - 1]) {
      var t := s[..|s| - 1];
      RStripShape(t);
      var j := |RStrip(s)|;
      assert t[..j] == s[..j];
      assert s[j..] == t[j..] + [s[|s| - 1]];
    }
  }

  /** `s.strip()` is a slice of `s` with only whitespace cut off on either
      side, and it neither starts nor ends with whitespace. */
  lemma StripShape(s: string)
    ensures exists i, j :: 0 <= i <= j <= |s| && Strip(s) == s[i..j]
                           && AllSpace(s[..i]) && AllSpace(s[j..])
    ensures Strip(s) == [] || (!IsSpace(Strip(s)[0]) && !IsSpace(Strip(s)[|Strip(s)| - 1]))
  {
    LStripShape(s);
    var l := LStrip(s);
    var i := |s| - |l|;
    RStripShape(l);
    var j := i + |RStrip(l)|;
    assert l[..|RStrip(l)|] == s[i..j];
    assert s[j..] == l[|RStrip(l)|..];
    if Strip(s) != [] {
      assert Strip(s)[0] == l[0];
    }
  }

  /** `s.strip()` is empty exactly when `s` is all whitespace. */
  lemma {:induction false} StripEmptyIffAllSpace(s: string)
    ensures Strip(s) == "" <==> AllSpace(s)
  {
    StripShape(s);
    var i, j :| 0 <= i <= j <= |s| && Strip(s) == s[i..j] && AllSpace(s[..i]) && AllSpace(s[j..]);
    if Strip(s) == "" {
      assert i == j;
      forall k | 0 <= k < |s| ensures IsSpace(s[k]) {
        if k < i { assert s[k] == s[..i][k]; } else { assert s[k] == s[j..][k - j]; }
      }
    } else {
      assert s[i..j][0] == s[i];
    }
  }

  // ---------------------------------------------------------------------
  // Splitting and joining

  /** `s.split(sep)` for a one-character separator: every occurrence of the
      separator cuts, so adjacent separators give empty pieces. */
  function Split(s: string, sep: char): (r: seq<string>)
    ensures |r| >= 1
    decreases |s|
  {
    if |s| == 0 then [""]
    else if s[0] == sep then [""] + Split(s[1..], sep)
    else
      var rest := Split(s[1..], sep);
      [[s[0]] + rest[0]] + rest[1..]
  }

  /** `sep.join(parts)` */
  function Join(parts: seq<string>, sep: string): string {
    if |parts| == 0 then ""
    else if |parts| == 1 then parts[0]
    else parts[0] + sep + Join(parts[1..], sep)
  }

  lemma {:induction false} SplitPiecesFree(s: string, sep: char)
    ensures forall p :: p in Split(s, sep) ==> sep !in p
    decreases |s|
  {
    if |s| > 0 {
      SplitPiecesFree(s[1..], sep);
    }
  }

  /** Putting a character in front of the first piece puts it in front of the join. */
  lemma JoinConsHead(c: char, parts: seq<string>, sep: string)
    requires |parts| >= 1
    ensures Join([[c] + parts[0]] + parts[1..], sep) == [c] + Join(parts, sep)
  {
    var ps := [[c] + parts[0]] + parts[1..];
    assert ps[1..] == parts[1..];
  }

  /** Joining the pieces of a split restores the string. */
  lemma {:induction false} JoinSplit(s: string, sep: char)
    ensures Join(Split(s, sep), [sep]) == s
    decreases |s|
  {
    if |s| > 0 {
      var rest := Split(s[1..], sep);
      JoinSplit(s[1..], sep);
      assert [s[0]] + s[1..] == s;
      if s[0] == sep {
        assert ([""] + rest)[1..] == rest;
      } else {
        JoinConsHead(s[0], rest, [sep]);
      }
    }
  }

  lemma {:induction false} SplitPrepend(c: char, t: string, sep: char)
    requires c != sep
    ensures Split([c] + t, sep) == [[c] + Split(t, sep)[0]] + Split(t, sep)[1..]
  {
    assert ([c] + t)[1..] == t;
  }

  /** Splitting a joined list gives the list back, when no piece holds the separator. */
  lemma {:induction false} SplitJoin(parts: seq<string>, sep: char)
    requires |parts| >= 1
    requires forall p :: p in parts ==> sep !in p
    ensures Split(Join(parts, [sep]), sep) == parts
    decreases |parts|, |parts[0]|
  {
    var head := parts[0];
    if |head| == 0 {
      if |parts| == 1 {
      } else {
        var tail := Join(parts[1..], [sep]);
        assert Join(parts, [sep]) == [sep] + tail;
        assert ([sep] + tail)[1..] == tail;
        SplitJoin(parts[1..], sep);
        assert parts == [""] + parts[1..];
      }
    } else {
      var shorter := [head[1..]] + parts[1..];
      assert forall p :: p in shorter ==> sep !in p by {
        forall p | p in shorter ensures sep !in p {
          if p == head[1..] {
            assert parts[0] in parts;
            assert forall k :: 0 <= k < |p| ==> p[k] == head[k + 1];
          } else {
            assert p in parts;
          }
        }
      }
      assert head in parts;
      SplitJoin(shorter, sep);
      assert shorter[1..] == parts[1..];
      assert Join(parts, [sep]) == [head[0]] + Join(shorter, [sep]) by {
        if |parts| == 1 {
          assert head == [head[0]] + head[1..];
        } else {
          assert head == [head[0]] + head[1..];
          assert Join(parts, [sep]) == head + [sep] + Join(parts[1..], [sep]);
          assert Join(shorter, [sep]) == head[1..] + [sep] + Join(parts[1..], [sep]);
        }
      }
      assert head[0] != sep;
      SplitPrepend(head[0], Join(shorter, [sep]), sep);
      assert [head[0]] + head[1..] == head;
      assert parts == [head] + parts[1..];
    }
  }

  /** Each piece followed by a newline: what a loop of `f.write(line + "\n")` writes. */
  function Terminated(lines: seq<string>): string {
    if |lines| == 0 then "" else lines[0] + "\n" + Terminated(lines[1..])
  }

  lemma {:induction false} TerminatedIsJoin(lines: seq<string>)
    ensures Terminated(lines) == Join(lines + [""], "\n")
    decreases |lines|
  {
    if |lines| > 0 {
      TerminatedIsJoin(lines[1..]);
      assert (lines + [""])[1..] == lines[1..] + [""];
    }
  }

  lemma {:induction false} TerminatedAppend(lines: seq<string>, last: string)
    ensures Terminated(lines + [last]) == Terminated(lines) + last + "\n"
    decreases |lines|
  {
    if |lines| == 0 {
    } else {
      assert (lines + [last])[1..] == lines[1..] + [last];
      TerminatedAppend(lines[1..], last);
    }
  }

  /** A file written line by line splits back into those lines (and the
      empty text after the final newline). */
  lemma TerminatedLines(lines: seq<string>)
    requires forall l :: l in lines ==> '\n' !in l
    ensures Split(Terminated(lines), '\n') == lines + [""]
  {
    TerminatedIsJoin(lines);
    SplitJoin(lines + [""], '\n');
  }

  // ---------------------------------------------------------------------
  // Decimal formatting

  function DigitChar(d: nat): char
    requires d < 10
  {
    ('0' as int + d) as char
  }

  predicate IsDigit(c: char) {
    '0' <= c <= '9'
  }

  predicate AllDigits(s: string) {
    forall i :: 0 <= i < |s| ==> IsDigit(s[i])
  }

  /** `str(n)` for a non-negative integer. */
  function NatToString(n: nat): (r: string)
    ensures |r| > 0
    decreases n, 1
  {
    Leading(n) + [DigitChar(n % 10)]
  }

  /** The digits of `n` before its last one: none when `n` has a single digit. */
  function Leading(n: nat): string
    decreases n, 0
  {
    if n < 10 then "" else NatToString(n / 10)
  }

  /** The value of a string of decimal digits. */
  function DigitsValue(s: string): nat
    requires AllDigits(s)
  {
    if |s| == 0 then 0
    else
      assert IsDigit(s[|s| - 1]);
      10 * DigitsValue(s[..|s| - 1]) + (s[|s| - 1] as int - '0' as int)
  }

  /** The decimal form is all digits, has no leading zero, and reading the
      digits back gives the number: the decimal form determines `n`. */
  lemma {:induction false} NatToStringValue(n: nat)
    ensures AllDigits(NatToString(n)) && DigitsValue(NatToString(n)) == n
    ensures |NatToString(n)| == 1 || NatToString(n)[0] != '0'
    ensures n > 0 ==> NatToString(n)[0] != '0'
    decreases n
  {
    if n >= 10 {
      NatToStringValue(n / 10);
      var s := NatToString(n);
      assert s[..|s| - 1] == NatToString(n / 10);
      assert s == NatToString(n / 10) + [DigitChar(n % 10)];
    }
  }

  lemma NatToStringInjective(m: nat, n: nat)
    ensures NatToString(m) == NatToString(n) ==> m == n
  {
    NatToStringValue(m);
    NatToStringValue(n);
  }

  lemma NatToStringNoNewline(n: nat)
    ensures '\n' !in NatToString(n)
  {
    NatToStringValue(n);
    var s := NatToString(n);
    forall i | 0 <= i < |s| ensures s[i] != '\n' {
      assert IsDigit(s[i]);
    }
  }

  // ---------------------------------------------------------------------
  // Paths

  /** `str(Path(base) / p1 / ... / pn)` on Windows, where an empty base is the current directory. */
  function PathJoin(base: string, parts: seq<string>): (r: string)
    requires |parts| > 0
    ensures |r| > 0 || Join(parts, "\\") == ""
  {
    if base == "" then Join(parts, "\\") else base + "\\" + Join(parts, "\\")
  }
}
