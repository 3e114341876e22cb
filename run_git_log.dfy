/**
 * code/run_git_log.py: the pure parts of the git-log export script —
 * its own copy of the root search, the numbering of output files, the
 * output file name, the preview trimmer and the git argument vector.
 */
module GitLog {
  import opened Wrappers
  import opened FileSystems
  import opened RootSearch
  import GetPath

  const OutdirName := ".gitlog"
  const OutfileStem := "gitlog"
  const OutfileSuffix := ".txt"
  const DefaultPretty := "%H %cI %d %s"
  const AllBranches := true
  const Since: Option<string> := None
  const Limit: Option<int> := None

  // ---- project root ----

  /** find_project_root: the same search as utils/get_path.py, copied verbatim in the script. */
  method FindProjectRoot(t: Tree, start: Path) returns (r: Result<Path, SearchError>)
    ensures r.Ok? ==> r.value <= SearchStart(t, start) && HasGit(t, r.value)
    ensures r.Ok? ==> forall k | |r.value| < k <= |SearchStart(t, start)| :: !HasGit(t, SearchStart(t, start)[..k])
    ensures r.Err? <==> forall k | 0 <= k <= |SearchStart(t, start)| :: !HasGit(t, SearchStart(t, start)[..k])
    ensures r == FindRoot(t, start)
  {
    r := GetPath.FindProjectRoot(t, start);
  }

  // ---- ASCII decimal numbers ----

  predicate IsAsciiDigit(c: char) {
    '0' <= c <= '9'
  }

  predicate AllDigits(s: string) {
    forall i | 0 <= i < |s| :: IsAsciiDigit(s[i])
  }

  function DigitValue(c: char): (d: nat)
    requires IsAsciiDigit(c)
    ensures d < 10
  {
    c as int - '0' as int
  }

  function DigitChar(d: nat): (c: char)
    requires d < 10
    ensures IsAsciiDigit(c) && DigitValue(c) == d
  {
    ('0' as int + d) as char
  }

  /** `int(s)` for a string of ASCII digits. */
  function DecimalValue(s: string): nat
    requires AllDigits(s)
    decreases |s|
  {
    if s == [] then 0 else 10 * DecimalValue(s[..|s| - 1]) + DigitValue(s[|s| - 1])
  }

  lemma TwoDigitValue(a: string)
    requires |a| == 2 && AllDigits(a)
    ensures DecimalValue(a) == 10 * DigitValue(a[0]) + DigitValue(a[1])
  {
    var first := a[..1];
    assert first == [a[0]] && first[..0] == [];
    assert DecimalValue(first) == DigitValue(a[0]);
  }

  /** `str(n)` for a natural number: its digits without leading zeros. */
  function Decimal(n: nat): (s: string)
    ensures |s| >= 1 && AllDigits(s)
    ensures |s| == 1 <==> n < 10
    ensures |s| == 2 <==> 10 <= n < 100
    decreases n
  {
    if n < 10 then [DigitChar(n)] else Decimal(n / 10) + [DigitChar(n % 10)]
  }

  lemma {:induction false} DecimalRoundTrip(n: nat)
    ensures DecimalValue(Decimal(n)) == n
    decreases n
  {
    if n >= 10 {
      DecimalRoundTrip(n / 10);
      var s := Decimal(n);
      assert s[..|s| - 1] == Decimal(n / 10);
    }
  }

  /** `f"{n:02d}"`: the decimal digits of `n`, zero-padded to at least two. */
  function ZeroPad2(n: nat): (s: string)
    ensures |s| >= 2 && AllDigits(s)
    ensures |s| == 2 <==> n < 100
  {
    if n < 10 then "0" + Decimal(n) else Decimal(n)
  }

  lemma ZeroPad2RoundTrip(n: nat)
    ensures DecimalValue(ZeroPad2(n)) == n
  {
    DecimalRoundTrip(n);
    if n < 10 {
      var s := ZeroPad2(n);
      assert s[..|s| - 1] == "0";
      assert DecimalValue("0") == 0 by {
        assert "0"[..0] == [];
      }
    }
  }

  /** `str(n)` for any integer: a minus sign before the digits of a negative number. */
  function IntToString(n: int): (s: string)
    ensures |s| >= 1
  {
    if n < 0 then "-" + Decimal(-n) else Decimal(n)
  }

  /** The inverse of IntToString. */
  function ParseInt(s: string): Option<int> {
    if |s| >= 2 && s[0] == '-' && AllDigits(s[1..]) then Some(-(DecimalValue(s[1..]) as int))
    else if |s| >= 1 && AllDigits(s) then Some(DecimalValue(s))
    else None
  }

  /**
   * Congruence for `DecimalValue`, as its own step: stated inline, the
   * equality of the two strings makes the solver unfold `DecimalValue`
   * digit by digit on both sides, at a cost far above the caller's own.
   */
  lemma SameDigitsSameValue(a: string, b: string)
    requires AllDigits(a) && a == b
    ensures DecimalValue(a) == DecimalValue(b)
  {
  }

  /** A minus sign followed by digits parses as the negated value. */
  lemma ParseMinusDigits(s: string, d: string, n: int)
    requires |d| >= 1 && AllDigits(d) && s == "-" + d && DecimalValue(d) == -n
    ensures ParseInt(s) == Some(n)
  {
    assert s[1..] == d;
    SameDigitsSameValue(s[1..], d);
  }

  /** A negative number's text is a minus sign and its magnitude's digits, which parse back. */
  lemma ParseNegative(n: int)
    requires n < 0
    ensures ParseInt(IntToString(n)) == Some(n)
  {
    DecimalRoundTrip(-n);
    ParseMinusDigits(IntToString(n), Decimal(-n), n);
  }

  /** Digits alone parse as their value. */
  lemma ParseDigits(s: string, n: int)
    requires |s| >= 1 && AllDigits(s) && DecimalValue(s) == n
    ensures ParseInt(s) == Some(n)
  {
    assert IsAsciiDigit(s[0]);
  }

  /** A non-negative number's text is its digits, which parse back. */
  lemma ParseNonNegative(n: int)
    requires n >= 0
    ensures ParseInt(IntToString(n)) == Some(n)
  {
    DecimalRoundTrip(n);
    ParseDigits(IntToString(n), n);
  }

  lemma IntToStringRoundTrip(n: int)
    ensures ParseInt(IntToString(n)) == Some(n)
  {
    if n < 0 {
      ParseNegative(n);
    } else {
      ParseNonNegative(n);
    }
  }

  // ---- output file numbering ----

  /** The output file name `f"gitlog{idx:02d}.txt"`. */
  function OutputFileName(idx: nat): string {
    OutfileStem + ZeroPad2(idx) + OutfileSuffix
  }

  /**
   * Where the log is written: `root / OUTDIR_NAME` as main computes it, then
   * the numbered file name inside it, each one path component.
   */
  function OutputFilePath(root: Path, idx: nat): (p: Path)
    ensures p == root + [OutdirName, OutputFileName(idx)]
  {
    var name := OutputFileName(idx);
    assert '/' !in name by {
      assert forall i | 0 <= i < |ZeroPad2(idx)| :: IsAsciiDigit(ZeroPad2(idx)[i]);
      assert name == OutfileStem + ZeroPad2(idx) + OutfileSuffix;
    }
    Join(Join(root, OutdirName), name)
  }

  /**
   * The index carried by a directory entry named `gitlogNN.txt`, NN being
   * exactly two ASCII digits; every other name carries none.
   */
  function TwoDigitIndex(name: string): (r: Option<nat>)
    ensures r.Some? ==> r.value < 100
  {
    if |name| == 12 && name[..6] == OutfileStem && name[8..] == OutfileSuffix
       && IsAsciiDigit(name[6]) && IsAsciiDigit(name[7])
    then Some(10 * DigitValue(name[6]) + DigitValue(name[7]))
    else None
  }

  /** The name written for index `idx` carries `idx` back exactly when it has two digits. */
  lemma OutputFileNameIndex(idx: nat)
    ensures idx < 100 ==> TwoDigitIndex(OutputFileName(idx)) == Some(idx)
    ensures idx >= 100 ==> TwoDigitIndex(OutputFileName(idx)) == None
  {
    var pad := ZeroPad2(idx);
    var name := OutputFileName(idx);
    ZeroPad2RoundTrip(idx);
    if idx < 100 {
      assert name[6..8] == pad && name[..6] == OutfileStem && name[8..] == OutfileSuffix;
      TwoDigitValue(pad);
    } else {
      assert |name| > 12;
    }
  }

  /**
   * What next_index returns for a directory whose entries are `names`: one
   * more than the largest two-digit index present, 0 when there is none.
   */
  function NextIndexOf(names: seq<string>): (r: nat)
    ensures r <= 100
    ensures forall i | 0 <= i < |names| && TwoDigitIndex(names[i]).Some? :: TwoDigitIndex(names[i]).value < r
    ensures r == 0 <==> forall i | 0 <= i < |names| :: TwoDigitIndex(names[i]).None?
    ensures r > 0 ==> exists i | 0 <= i < |names| :: TwoDigitIndex(names[i]) == Some(r - 1)
    decreases |names|
  {
    if names == [] then 0
    else
      var init := names[..|names| - 1];
      var rest := NextIndexOf(init);
      assert forall i | 0 <= i < |init| :: init[i] == names[i];
      match TwoDigitIndex(names[|names| - 1])
      case Some(n) => if n + 1 > rest then n + 1 else rest
      case None => rest
  }

  /** Matching a directory entry against the glob `gitlog*.txt`. */
  predicate MatchesGlob(name: string) {
    |name| >= |OutfileStem| + |OutfileSuffix|
    && name[..|OutfileStem|] == OutfileStem
    && name[|name| - |OutfileSuffix|..] == OutfileSuffix
  }

  /** The glob, stem and tail checks of next_index pick out exactly the two-digit indices. */
  lemma GlobTailIndex(name: string)
    ensures !MatchesGlob(name) ==> TwoDigitIndex(name).None?
    ensures MatchesGlob(name) ==>
      var stem := name[..|name| - |OutfileSuffix|];
      var tail := stem[|OutfileStem|..];
      && stem[..|OutfileStem|] == OutfileStem
      && TwoDigitIndex(name) == if AllDigits(tail) && |tail| == 2 then Some(DecimalValue(tail)) else None
  {
    if MatchesGlob(name) {
      var stem := name[..|name| - |OutfileSuffix|];
      var tail := stem[|OutfileStem|..];
      if |name| == 12 {
        assert tail == name[6..8];
        assert tail[0] == name[6] && tail[1] == name[7];
        if AllDigits(tail) {
          TwoDigitValue(tail);
        }
      } else {
        assert |tail| != 2;
      }
    }
  }

  /**
   * next_index: over the entries matching the glob, takes the stem, the
   * tail after `gitlog`, keeps tails of exactly two digits and returns their
   * maximum plus one (0 when none).  The directory listing is passed in.
   */
  method NextIndex(names: seq<string>) returns (r: nat)
    ensures r == NextIndexOf(names)
    ensures r <= 100
    ensures forall i | 0 <= i < |names| && TwoDigitIndex(names[i]).Some? :: TwoDigitIndex(names[i]).value < r
  {
    var maxN: int := -1;
    for i := 0 to |names|
      invariant -1 <= maxN < 100
      invariant maxN + 1 == NextIndexOf(names[..i])
    {
      var name := names[i];
      assert names[..i + 1][..i] == names[..i];
      GlobTailIndex(name);
      if MatchesGlob(name) {
        var stem := name[..|name| - |OutfileSuffix|];   // f.stem
        if stem[..|OutfileStem|] == OutfileStem {
          var tail := stem[|OutfileStem|..];
          if AllDigits(tail) && |tail| == 2 {
            var n := DecimalValue(tail);
            if n > maxN {
              maxN := n;
            }
          }
        }
      }
    }
    assert names[..|names|] == names;
    r := maxN + 1;
  }

  /** While the next index has two digits, the file it names is not already there. */
  lemma FreshOutputFileName(names: seq<string>)
    requires NextIndexOf(names) < 100
    ensures OutputFileName(NextIndexOf(names)) !in names
  {
    var r := NextIndexOf(names);
    OutputFileNameIndex(r);
  }

  /**
   * Past 99 the numbering stops: with `gitlog99.txt` and `gitlog100.txt`
   * present the next index is 100 again, naming the existing file.
   */
  lemma HundredIsReused()
    ensures var names := ["gitlog99.txt", "gitlog100.txt"];
            NextIndexOf(names) == 100 && OutputFileName(100) == names[1]
  {
    var names := ["gitlog99.txt", "gitlog100.txt"];
    assert names[..1] == ["gitlog99.txt"];
    assert ["gitlog99.txt"][..0] == [];
    assert TwoDigitIndex("gitlog99.txt") == Some(99);
    assert ZeroPad2(100) == "100" by {
      assert Decimal(10) == "10" by { assert Decimal(1) == "1"; }
    }
  }

  // ---- preview ----

  /** ASCII whitespace as `str.split()` sees it: tab to carriage return, and 0x1C to the space. */
  predicate IsSpace(c: char) {
    ('\t' <= c <= '\r') || ('\U{1C}' <= c <= ' ')
  }

  /** `s.rstrip("\r\n")` */
  function RStripNewlines(s: string): (r: string)
    ensures r <= s
    ensures r == [] || (r[|r| - 1] != '\r' && r[|r| - 1] != '\n')
    ensures forall i | |r| <= i < |s| :: s[i] == '\r' || s[i] == '\n'
    decreases |s|
  {
    if s != [] && (s[|s| - 1] == '\r' || s[|s| - 1] == '\n') then RStripNewlines(s[..|s| - 1]) else s
  }

  /** The first position at or after `i` that is not whitespace. */
  function SkipSpace(s: string, i: nat): (j: nat)
    requires i <= |s|
    ensures i <= j <= |s|
    ensures j == |s| || !IsSpace(s[j])
    decreases |s| - i
  {
    if i < |s| && IsSpace(s[i]) then SkipSpace(s, i + 1) else i
  }

  /** The first position at or after `i` that is whitespace or the end. */
  function SkipWord(s: string, i: nat): (j: nat)
    requires i <= |s|
    ensures i <= j <= |s|
    ensures i < |s| && !IsSpace(s[i]) ==> i < j
    decreases |s| - i
  {
    if i < |s| && !IsSpace(s[i]) then SkipWord(s, i + 1) else i
  }

  /** The whitespace-separated fields of `s` from position `i` on. */
  function FieldsFrom(s: string, i: nat): seq<string>
    requires i <= |s|
    decreases |s| - i
  {
    if i == |s| then []
    else if IsSpace(s[i]) then FieldsFrom(s, i + 1)
    else
      var j := SkipWord(s, i);
      [s[i..j]] + FieldsFrom(s, j)
  }

  /** `s.split()`: the whitespace-separated fields of `s`. */
  function Fields(s: string): seq<string> {
    FieldsFrom(s, 0)
  }

  /** Whitespace skipped before a position does not change the fields from there. */
  lemma {:induction false} FieldsSkipSpace(s: string, i: nat)
    requires i <= |s|
    ensures FieldsFrom(s, i) == FieldsFrom(s, SkipSpace(s, i))
    decreases |s| - i
  {
    if i < |s| && IsSpace(s[i]) {
      FieldsSkipSpace(s, i + 1);
    }
  }

  /** Dropping the first `k` characters shifts the word ends by `k`. */
  lemma {:induction false} SkipWordShift(s: string, k: nat, i: nat)
    requires k + i <= |s|
    ensures SkipWord(s[k..], i) == SkipWord(s, k + i) - k
    decreases |s| - k - i
  {
    if k + i < |s| && !IsSpace(s[k + i]) {
      SkipWordShift(s, k, i + 1);
    }
  }

  lemma FieldsFromSpace(s: string, i: nat)
    requires i < |s| && IsSpace(s[i])
    ensures FieldsFrom(s, i) == FieldsFrom(s, i + 1)
  {
  }

  lemma FieldsFromWord(s: string, i: nat)
    requires i < |s| && !IsSpace(s[i])
    ensures FieldsFrom(s, i) == [s[i..SkipWord(s, i)]] + FieldsFrom(s, SkipWord(s, i))
  {
  }

  /** The fields of a suffix are the fields of the whole string from where the suffix starts. */
  lemma {:induction false} FieldsShift(s: string, k: nat, i: nat)
    requires k + i <= |s|
    ensures FieldsFrom(s[k..], i) == FieldsFrom(s, k + i)
    decreases |s| - k - i
  {
    if k + i == |s| {
      FieldsShiftEnd(s, k, i);
    } else if IsSpace(s[k + i]) {
      FieldsShift(s, k, i + 1);
      FieldsShiftSpace(s, k, i);
    } else {
      var j := SkipWord(s, k + i);
      FieldsShift(s, k, j - k);
      FieldsShiftWord(s, k, i);
    }
  }

  lemma FieldsShiftEnd(s: string, k: nat, i: nat)
    requires k + i == |s|
    ensures FieldsFrom(s[k..], i) == FieldsFrom(s, k + i)
  {
    assert |s[k..]| == i;
  }

  lemma FieldsShiftSpace(s: string, k: nat, i: nat)
    requires k + i < |s| && IsSpace(s[k + i])
    requires FieldsFrom(s[k..], i + 1) == FieldsFrom(s, k + i + 1)
    ensures FieldsFrom(s[k..], i) == FieldsFrom(s, k + i)
  {
    var u := s[k..];
    assert u[i] == s[k + i];
    FieldsFromSpace(u, i);
    FieldsFromSpace(s, k + i);
  }

  lemma FieldsShiftWord(s: string, k: nat, i: nat)
    requires k + i < |s| && !IsSpace(s[k + i])
    requires FieldsFrom(s[k..], SkipWord(s, k + i) - k) == FieldsFrom(s, SkipWord(s, k + i))
    ensures FieldsFrom(s[k..], i) == FieldsFrom(s, k + i)
  {
    var u := s[k..];
    var j := SkipWord(s, k + i);
    WordShift(s, k, i);
    FieldsFromWord(u, i);
    FieldsFromWord(s, k + i);
    PrependSame(u[i..j - k], s[k + i..j], FieldsFrom(u, j - k), FieldsFrom(s, j));
  }

  /**
   * Congruence for prepending one field, as its own step: stated inline,
   * the solver compares the two field lists element by element instead of
   * rewriting with the two equalities it is given.
   */
  lemma PrependSame(w: string, w': string, f: seq<string>, f': seq<string>)
    requires w == w' && f == f'
    ensures [w] + f == [w'] + f'
  {
  }

  /** The word at `i` in `s[k..]` is the word at `k + i` in `s`. */
  lemma WordShift(s: string, k: nat, i: nat)
    requires k + i < |s|
    ensures s[k..][i] == s[k + i]
    ensures SkipWord(s[k..], i) == SkipWord(s, k + i) - k
    ensures s[k..][i..SkipWord(s, k + i) - k] == s[k + i..SkipWord(s, k + i)]
  {
    SkipWordShift(s, k, i);
  }


  /** Where `s.split(maxsplit=1)[1]` begins: past leading space, the first field and the space after it. */
  function RestStart(s: string): (k: nat)
    ensures k <= |s|
  {
    SkipSpace(s, SkipWord(s, SkipSpace(s, 0)))
  }

  /** `s.split(maxsplit=1)` has two parts exactly when text is left at RestStart, and that text holds the other fields. */
  lemma RestStartFields(s: string)
    ensures RestStart(s) < |s| <==> |Fields(s)| >= 2
    ensures RestStart(s) < |s| ==>
              && 0 < RestStart(s)
              && !IsSpace(s[RestStart(s)])
              && Fields(s[RestStart(s)..]) == Fields(s)[1..]
  {
    var i := SkipSpace(s, 0);
    FieldsSkipSpace(s, 0);
    if i < |s| {
      var j := SkipWord(s, i);
      var k := SkipSpace(s, j);
      FieldsSkipSpace(s, j);
      FieldsFromWord(s, i);
      assert Fields(s) == [s[i..j]] + FieldsFrom(s, k);
      FieldsShift(s, k, 0);
      if k < |s| {
        FieldsFromWord(s, k);
      }
    }
  }


  /**
   * preview_without_hash_first: trailing CR/LF stripped; when at least two
   * fields remain, the text after the first field with its leading
   * whitespace dropped; otherwise the stripped line.
   */
  function PreviewWithoutHashFirst(line: string): (r: string)
    ensures r == [] || (r[|r| - 1] != '\r' && r[|r| - 1] != '\n')
    ensures var s := RStripNewlines(line);
            |Fields(s)| >= 2 ==>
              && 0 < |r| < |s| && r == s[|s| - |r|..]
              && !IsSpace(r[0])
              && Fields(r) == Fields(s)[1..]
    ensures var s := RStripNewlines(line);
            |Fields(s)| < 2 ==> r == s
  {
    var s := RStripNewlines(line);
    var k := RestStart(s);
    RestStartFields(s);
    if k < |s| then
      s[k..]
    else s
  }

  // ---- the git command ----

  const PrettyFlag := "--pretty="

  /** The options a git log argument vector carries; `since` and `limit` only when given and not empty/zero. */
  datatype LogOptions = LogOptions(allBranches: bool, pretty: string, since: Option<string>, limit: Option<int>)

  function LogHeader(pretty: string): seq<string> {
    ["git", "--no-pager", "log", "--no-color", PrettyFlag + pretty]
  }

  /** An optional `--all` at the head of `rest`, and what follows it. */
  function TakeAll(rest: seq<string>): (bool, seq<string>) {
    if |rest| >= 1 && rest[0] == "--all" then (true, rest[1..]) else (false, rest)
  }

  /** An optional `--since <date>` pair at the head of `rest`, and what follows it. */
  function TakeSince(rest: seq<string>): (Option<string>, seq<string>) {
    if |rest| >= 2 && rest[0] == "--since" then (Some(rest[1]), rest[2..]) else (None, rest)
  }

  /** An optional `-n <count>` pair at the head of `rest`, and what follows it. */
  function TakeLimit(rest: seq<string>): (Option<int>, seq<string>) {
    if |rest| >= 2 && rest[0] == "-n" && ParseInt(rest[1]).Some? then (ParseInt(rest[1]), rest[2..])
    else (None, rest)
  }

  /** Reads the arguments after the fixed head back into options; everything must be consumed. */
  function ParseOptions(pretty: string, rest: seq<string>): Option<LogOptions> {
    var (all, rest1) := TakeAll(rest);
    var (since, rest2) := TakeSince(rest1);
    var (limit, rest3) := TakeLimit(rest2);
    if rest3 == [] then Some(LogOptions(all, pretty, since, limit)) else None
  }

  /** Reads a git log argument vector back into its options (the inverse of BuildGitLogCmd). */
  function ParseGitLogCmd(cmd: seq<string>): Option<LogOptions> {
    if |cmd| < 5 || cmd[..4] != LogHeader("")[..4] || !(PrettyFlag <= cmd[4]) then None
    else ParseOptions(cmd[4][|PrettyFlag|..], cmd[5..])
  }

  /** Python truthiness of `since` and `limit`. */
  predicate SinceGiven(since: Option<string>) { since.Some? && since.value != "" }

  predicate LimitGiven(limit: Option<int>) { limit.Some? && limit.value != 0 }

  /** The optional arguments, each present exactly when its option is given. */
  function AllArgs(allBranches: bool): seq<string> {
    if allBranches then ["--all"] else []
  }

  function SinceArgs(since: Option<string>): seq<string> {
    if SinceGiven(since) then ["--since", since.value] else []
  }

  function LimitArgs(limit: Option<int>): seq<string> {
    if LimitGiven(limit) then ["-n", IntToString(limit.value)] else []
  }

  lemma HeaderParse(pretty: string, rest: seq<string>)
    ensures ParseGitLogCmd(LogHeader(pretty) + rest) == ParseOptions(pretty, rest)
  {
    var cmd := LogHeader(pretty) + rest;
    assert cmd[..4] == LogHeader("")[..4];
    assert cmd[4] == PrettyFlag + pretty;
    assert cmd[4][|PrettyFlag|..] == pretty;
    assert cmd[5..] == rest;
  }

  lemma TakeAllBuilt(allBranches: bool, since: Option<string>, limit: Option<int>)
    ensures TakeAll(AllArgs(allBranches) + SinceArgs(since) + LimitArgs(limit))
            == (allBranches, SinceArgs(since) + LimitArgs(limit))
  {
    var tail := SinceArgs(since) + LimitArgs(limit);
    if allBranches {
      assert (["--all"] + SinceArgs(since) + LimitArgs(limit))[1..] == tail;
    } else {
      assert AllArgs(allBranches) + SinceArgs(since) + LimitArgs(limit) == tail;
    }
  }

  lemma TakeSinceBuilt(since: Option<string>, limit: Option<int>)
    ensures TakeSince(SinceArgs(since) + LimitArgs(limit))
            == (if SinceGiven(since) then since else None, LimitArgs(limit))
  {
    if SinceGiven(since) {
      assert (SinceArgs(since) + LimitArgs(limit))[2..] == LimitArgs(limit);
    } else {
      assert SinceArgs(since) + LimitArgs(limit) == LimitArgs(limit);
    }
  }

  lemma TakeLimitBuilt(limit: Option<int>)
    ensures TakeLimit(LimitArgs(limit)) == (if LimitGiven(limit) then limit else None, [])
  {
    if LimitGiven(limit) {
      var lp := LimitArgs(limit);
      IntToStringRoundTrip(limit.value);
      assert lp[1] == IntToString(limit.value) && lp[2..] == [];
    }
  }

  /**
   * build_git_log_cmd: the fixed five-element head, then `--all` when all
   * branches are wanted, `--since <since>` when since is non-empty and
   * `-n <limit>` when limit is non-zero, in that order and nothing else.
   */
  method BuildGitLogCmd(allBranches: bool, pretty: string, since: Option<string>, limit: Option<int>)
    returns (cmd: seq<string>)
    ensures |cmd| == 5 + (if allBranches then 1 else 0) + (if SinceGiven(since) then 2 else 0)
                       + (if LimitGiven(limit) then 2 else 0)
    ensures cmd[..5] == LogHeader(pretty)
    ensures LimitGiven(limit) ==> cmd[|cmd| - 2..] == ["-n", IntToString(limit.value)]
    ensures ParseGitLogCmd(cmd) == Some(LogOptions(allBranches, pretty,
                                                   if SinceGiven(since) then since else None,
                                                   if LimitGiven(limit) then limit else None))
  {
    cmd := LogHeader(pretty);
    if allBranches {
      cmd := cmd + ["--all"];
    }
    if SinceGiven(since) {
      cmd := cmd + ["--since", since.value];
    }
    if LimitGiven(limit) {
      cmd := cmd + ["-n", IntToString(limit.value)];
    }
    assert cmd == LogHeader(pretty) + (AllArgs(allBranches) + SinceArgs(since) + LimitArgs(limit));
    HeaderParse(pretty, AllArgs(allBranches) + SinceArgs(since) + LimitArgs(limit));
    TakeAllBuilt(allBranches, since, limit);
    TakeSinceBuilt(since, limit);
    TakeLimitBuilt(limit);
  }

  /** `build_git_log_cmd()` with the module defaults, as main calls it: six elements ending in `--all`. */
  method DefaultGitLogCmd() returns (cmd: seq<string>)
    ensures |cmd| == 6 && cmd[5] == "--all"
    ensures cmd[..5] == LogHeader(DefaultPretty)
  {
    cmd := BuildGitLogCmd(AllBranches, DefaultPretty, Since, Limit);
  }
}
