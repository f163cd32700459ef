/** mlab/mlab.py: sum the sizes in a storage report per project. A line
    counts when it matches `line_re` (case-insensitive): an environment, a
    dash, a project name from a fixed list, anything, and ` - <digits>` at
    the end; the digits are added to the project's total, keyed by the
    project name as written in the line. Byte counts stay integers. */
module Mlab {
  import opened Wrappers
  import opened Text
  import Tally
  import Seqs

  /** The first group of `line_re`, in order. */
  const Envs: seq<string> := ["dev", "prod", "uat", "qa"]

  /** The second group of `line_re`, in order (mlab/mlab.py:8-13). */
  const Projects: seq<string> := [
    "aco", "asroma2", "augusta", "cbcom", "championsleague", "chl", "concacaf", "copa90", "demo",
    "echl", "ffhb", "fisc", "fwkc", "goldcup", "infront", "ixco", "legendssvo-bb", "legendssvo",
    "legendsoue", "legendscsl-bb", "legendscsl", "legendsconsl", "legends-bb", "legends", "level99",
    "lnrugby", "nationsleague", "ogcom", "owo", "releventsicc", "relevents", "sample", "sinclair",
    "socialaggregator", "supersevensrugby", "velon2", "velonhs", "xfl"]

  // ---------------------------------------------------------------- the matcher

  /** A lower-case literal matched case-insensitively at position `i`. */
  predicate CiPrefixAt(s: string, i: nat, pat: string)
  {
    i + |pat| <= |s| && Lower(s[i..i + |pat|]) == pat
  }

  /** Where `.*` starting at `p` can reach: the first newline, or the end. */
  function LineEnd(s: string, p: nat): (q: nat)
    requires p <= |s|
    ensures p <= q <= |s|
    decreases |s| - p
  {
    if p == |s| || s[p] == '\n' then p else LineEnd(s, p + 1)
  }

  /** `LineEnd` stops at the first newline from `p` on. */
  lemma {:induction false} LineEndSpec(s: string, p: nat)
    requires p <= |s|
    ensures var q := LineEnd(s, p);
      (forall k :: p <= k < q ==> s[k] != '\n') && (q < |s| ==> s[q] == '\n')
    decreases |s| - p
  {
    if p < |s| && s[p] != '\n' {
      LineEndSpec(s, p + 1);
    }
  }

  /** Where the longest run of digits starting at `p` ends. */
  function DigitEnd(s: string, p: nat): (e: nat)
    requires p <= |s|
    ensures p <= e <= |s| && AllDigits(s[p..e])
    decreases |s| - p
  {
    if p == |s| || !IsDigit(s[p]) then p else DigitEnd(s, p + 1)
  }

  /** `DigitEnd` stops at the first non-digit from `p` on. */
  lemma {:induction false} DigitEndSpec(s: string, p: nat)
    requires p <= |s|
    ensures var e := DigitEnd(s, p);
      (forall k :: p <= k < e ==> IsDigit(s[k])) && (e < |s| ==> !IsDigit(s[e]))
    decreases |s| - p
  {
    if p < |s| && IsDigit(s[p]) {
      DigitEndSpec(s, p + 1);
    }
  }

  /** Where `$` holds: at the end, or just before a final newline. */
  predicate Dollar(s: string, e: nat)
  {
    e == |s| || (e + 1 == |s| && s[e] == '\n')
  }

  /** ` - (\d+)$` at position `q`: the digits, read as a number. Giving back
      digits cannot help, since `$` never holds before a digit. */
  function Tail(s: string, q: nat): Option<nat>
  {
    if q + 3 <= |s| && s[q..q + 3] == " - " then
      var e := DigitEnd(s, q + 3);
      if e > q + 3 && Dollar(s, e) then Some(DigitsValue(s[q + 3..e])) else None
    else None
  }

  /** `.*` has taken `s[p..q]`: try the tail there, then give back one
      character at a time. */
  function Backtrack(s: string, p: nat, q: nat): Option<nat>
    requires p <= q <= |s|
    decreases q - p
  {
    match Tail(s, q)
    case Some(v) => Some(v)
    case None => if q == p then None else Backtrack(s, p, q - 1)
  }

  /** `.* - (\d+)$` from position `p`. */
  function Rest(s: string, p: nat): Option<nat>
    requires p <= |s|
  {
    Backtrack(s, p, LineEnd(s, p))
  }

  /** `.* - (\d+)$` as a continuation: what it matches from each position. */
  function RestFrom(s: string): nat -> Option<nat>
  {
    (p: nat) => if p <= |s| then Rest(s, p) else None
  }

  /** The project alternation `names` at `start`, from alternative `j` on,
      followed by `rest`: the first alternative after which the rest
      matches. */
  function TryProject(s: string, start: nat, names: seq<string>, j: nat, rest: nat -> Option<nat>): Option<(string, int)>
    decreases |names| - j
  {
    if j >= |names| then None
    else if CiPrefixAt(s, start, names[j]) then
      match rest(start + |names[j]|)
      case Some(v) => Some((s[start..start + |names[j]|], v))
      case None => TryProject(s, start, names, j + 1, rest)
    else TryProject(s, start, names, j + 1, rest)
  }

  /** Environment `i` and its dash begin the line. */
  predicate EnvAt(s: string, i: nat)
    requires i < |Envs|
  {
    CiPrefixAt(s, 0, Envs[i]) && |Envs[i]| < |s| && s[|Envs[i]|] == '-'
  }

  /** The environment alternation, from alternative `i` on. */
  function TryEnv(s: string, names: seq<string>, i: nat): Option<(string, int)>
    decreases |Envs| - i
  {
    if i >= |Envs| then None
    else if EnvAt(s, i) then
      match TryProject(s, |Envs[i]| + 1, names, 0, RestFrom(s))
      case Some(r) => Some(r)
      case None => TryEnv(s, names, i + 1)
    else TryEnv(s, names, i + 1)
  }

  /** `line_re.match(line)`: groups 2 and 3 (as a number), or None. */
  function MatchLine(s: string): Option<(string, int)>
  {
    TryEnv(s, Projects, 0)
  }

  // ---------------------------------------------------------------- closed form

  /** The line without one final newline. */
  function Body(s: string): (b: string)
    ensures |b| <= |s| && b == s[..|b|] && (|b| == |s| || (|b| + 1 == |s| && s[|b|] == '\n'))
  {
    if s != [] && s[|s| - 1] == '\n' then s[..|s| - 1] else s
  }

  /** The length of the run of digits that ends `b`. */
  function TrailingDigits(b: string): (k: nat)
    ensures k <= |b| && AllDigits(b[|b| - k..])
  {
    if b == [] || !IsDigit(b[|b| - 1]) then 0 else TrailingDigits(b[..|b| - 1]) + 1
  }

  /** `TrailingDigits` counts back to the last non-digit. */
  lemma {:induction false} TrailingDigitsSpec(b: string)
    ensures var k := TrailingDigits(b);
      && (forall i :: |b| - k <= i < |b| ==> IsDigit(b[i]))
      && (k < |b| ==> !IsDigit(b[|b| - k - 1]))
  {
    if b != [] && IsDigit(b[|b| - 1]) {
      TrailingDigitsSpec(b[..|b| - 1]);
    }
  }

  /** The body ends with ` - ` and a non-empty run of digits. */
  predicate TailShape(s: string)
  {
    var b, k := Body(s), TrailingDigits(Body(s));
    k >= 1 && k + 3 <= |b| && b[|b| - k - 3..|b| - k] == " - "
  }

  /** Where the ` - ` before the final digits starts. */
  function TailStart(s: string): int
  {
    |Body(s)| - TrailingDigits(Body(s)) - 3
  }

  /** The final digits, read as a number. */
  function TailValue(s: string): nat
  {
    var b := Body(s);
    DigitsValue(b[|b| - TrailingDigits(b)..])
  }

  /** `.* - (\d+)$` can match from `p`: the tail is there, after `p`, with no
      newline in between. */
  predicate RestOk(s: string, p: nat)
  {
    TailShape(s) && p <= TailStart(s) && forall k :: p <= k < TailStart(s) ==> s[k] != '\n'
  }

  /** The tail matches at exactly one position, the start of the final
      ` - <digits>`, and reads the final digits. */
  lemma TailSpec(s: string, q: nat)
    ensures Tail(s, q).Some? <==> TailShape(s) && q == TailStart(s)
    ensures Tail(s, q).Some? ==> Tail(s, q).value == TailValue(s)
  {
    if Tail(s, q).Some? {
      TailFound(s, q);
    }
    if TailShape(s) && q == TailStart(s) {
      TailAtStart(s);
    }
  }

  lemma TailFound(s: string, q: nat)
    requires Tail(s, q).Some?
    ensures TailShape(s) && q == TailStart(s) && Tail(s, q).value == TailValue(s)
  {
    var e := DigitEnd(s, q + 3);
    DigitEndSpec(s, q + 3);
    var b := Body(s);
    assert |b| == e by {
      assert IsDigit(s[e - 1]);
    }
    forall i | q + 3 <= i < |b| ensures IsDigit(b[i]) {
      assert b[i] == s[i];
    }
    assert b[q..q + 3] == s[q..q + 3] == " - ";
    assert b[q + 2] == ' ';
    TrailingRun(b, q + 3);
    assert b[q + 3..] == s[q + 3..e];
  }

  lemma TailAtStart(s: string)
    requires TailShape(s)
    ensures TailStart(s) >= 0 && Tail(s, TailStart(s)) == Some(TailValue(s))
  {
    var b := Body(s);
    var k := TrailingDigits(b);
    var q := |b| - k - 3;
    TrailingDigitsSpec(b);
    forall i | q + 3 <= i < |b| ensures IsDigit(s[i]) {
      assert s[i] == b[i];
    }
    DigitRun(s, q + 3, |b|);
    assert s[q..q + 3] == b[q..q + 3];
    assert b[|b| - k..] == s[q + 3..|b|];
  }

  /** A run of digits from `t` to the end, after a non-digit, is what
      `TrailingDigits` counts. */
  lemma {:induction false} TrailingRun(b: string, t: nat)
    requires t <= |b| && (forall i :: t <= i < |b| ==> IsDigit(b[i]))
    requires t > 0 ==> !IsDigit(b[t - 1])
    ensures TrailingDigits(b) == |b| - t
    decreases |b|
  {
    if t < |b| {
      var c := b[..|b| - 1];
      forall i | t <= i < |c| ensures IsDigit(c[i]) {
        assert c[i] == b[i];
      }
      if t > 0 {
        assert c[t - 1] == b[t - 1];
      }
      TrailingRun(c, t);
    }
  }

  /** A run of digits from `p` to `e`, followed by a non-digit or the end, is
      where `DigitEnd` stops. */
  lemma {:induction false} DigitRun(s: string, p: nat, e: nat)
    requires p <= e <= |s| && (forall i :: p <= i < e ==> IsDigit(s[i]))
    requires e < |s| ==> !IsDigit(s[e])
    ensures DigitEnd(s, p) == e
    decreases e - p
  {
    if p < e {
      DigitRun(s, p + 1, e);
    }
  }

  /** The run of digits ending `pre + ds` is `ds`, when `pre` ends in some
      other character. */
  lemma TrailingDigitsOf(pre: string, ds: string)
    requires pre != [] && !IsDigit(pre[|pre| - 1]) && AllDigits(ds)
    ensures TrailingDigits(pre + ds) == |ds|
  {
    var b := pre + ds;
    assert b[|pre| - 1] == pre[|pre| - 1];
    forall i | |pre| <= i < |b| ensures IsDigit(b[i]) {
      assert b[i] == ds[i - |pre|];
    }
    TrailingRun(b, |pre|);
  }

  lemma BodyOf(b: string, newline: bool)
    requires b == [] || b[|b| - 1] != '\n'
    ensures Body(b + (if newline then "\n" else "")) == b
  {
    if newline {
      assert (b + "\n")[..|b|] == b;
    } else {
      assert b + "" == b;
    }
  }

  /** A line made of any text, ` - `, digits and an optional final newline
      has its tail at the end of the text and reads those digits, whatever
      the text holds (another ` - 5` in it included). */
  lemma TailOfLine(text: string, ds: string, newline: bool)
    requires ds != [] && AllDigits(ds)
    ensures var s := text + " - " + ds + (if newline then "\n" else "");
      TailShape(s) && TailStart(s) == |text| && TailValue(s) == DigitsValue(ds)
  {
    var b := text + " - " + ds;
    BodyOf(b, newline);
    TrailingDigitsOf(text + " - ", ds);
    assert b[|text|..|text| + 3] == " - ";
    assert b[|text| + 3..] == ds;
  }

  lemma {:induction false} BacktrackSpec(s: string, p: nat, q: nat)
    requires p <= q <= |s|
    ensures Backtrack(s, p, q) ==
      if TailShape(s) && p <= TailStart(s) <= q then Some(TailValue(s)) else None
    decreases q - p
  {
    TailSpec(s, q);
    if q > p {
      BacktrackSpec(s, p, q - 1);
    }
  }

  /** The rest of the pattern matches from `p` exactly when `RestOk` says,
      and then yields the final digits. */
  lemma RestSpec(s: string, p: nat)
    requires p <= |s|
    ensures Rest(s, p) == if RestOk(s, p) then Some(TailValue(s)) else None
  {
    var q := LineEnd(s, p);
    LineEndSpec(s, p);
    BacktrackSpec(s, p, q);
    if TailShape(s) && p <= TailStart(s) {
      var t := TailStart(s);
      assert s[t] == ' ' by {
        assert Body(s)[t] == ' ';
      }
      assert t <= |s|;
    }
  }

  lemma RestFromSpec(s: string, p: nat)
    ensures RestFrom(s)(p) == if RestOk(s, p) then Some(TailValue(s)) else None
  {
    if p <= |s| {
      RestSpec(s, p);
    } else if TailShape(s) {
      assert TailStart(s) <= |s|;
    }
  }

  /** No project name holds a space or a newline. */
  predicate Plain(name: string)
  {
    ' ' !in name && '\n' !in name
  }

  lemma ProjectsPlain()
    ensures forall j :: 0 <= j < |Projects| ==> Plain(Projects[j])
  {
    PlainUpTo10();
    PlainUpTo20();
    PlainUpTo30();
    PlainUpTo38();
  }

  // The listed names hold no space and no newline, checked ten at a time:
  // one lemma over all 38 names costs the solver more than four small ones.

  lemma PlainUpTo10()
    ensures forall j :: 0 <= j < 10 ==> Plain(Projects[j])
  {
  }

  lemma PlainUpTo20()
    ensures forall j :: 10 <= j < 20 ==> Plain(Projects[j])
  {
  }

  lemma PlainUpTo30()
    ensures forall j :: 20 <= j < 30 ==> Plain(Projects[j])
  {
  }

  lemma PlainUpTo38()
    ensures |Projects| == 38 && forall j :: 30 <= j < 38 ==> Plain(Projects[j])
  {
  }

  /** A plain alternative cannot reach into the tail or across a newline, so
      whether the rest matches does not depend on which alternative took the
      text before it. */
  lemma RestAfterPlain(s: string, start: nat, name: string)
    requires CiPrefixAt(s, start, name) && Plain(name)
    ensures RestOk(s, start + |name|) == RestOk(s, start)
  {
    var m := s[start..start + |name|];
    forall k | start <= k < start + |name|
      ensures s[k] != ' ' && s[k] != '\n'
    {
      assert Lower(m)[k - start] == LowerChar(s[k]) == name[k - start];
    }
    if TailShape(s) {
      var t := TailStart(s);
      assert s[t] == ' ' by {
        assert Body(s)[t] == ' ';
      }
    }
  }

  /** The first alternative from `j` on that matches at `start`, ignoring case. */
  function FirstPrefix(s: string, start: nat, names: seq<string>, j: nat): (r: Option<nat>)
    ensures r.Some? ==> j <= r.value < |names| && CiPrefixAt(s, start, names[r.value])
    decreases |names| - j
  {
    if j >= |names| then None
    else if CiPrefixAt(s, start, names[j]) then Some(j)
    else FirstPrefix(s, start, names, j + 1)
  }

  /** `FirstPrefix` finds the first alternative from `j` on that fits, and
      None when none does. */
  lemma {:induction false} FirstPrefixSpec(s: string, start: nat, names: seq<string>, j: nat)
    ensures var r := FirstPrefix(s, start, names, j);
      && (r.Some? ==> forall i :: j <= i < r.value ==> !CiPrefixAt(s, start, names[i]))
      && (r.None? ==> forall i :: j <= i < |names| ==> !CiPrefixAt(s, start, names[i]))
    decreases |names| - j
  {
    if j < |names| {
      FirstPrefixSpec(s, start, names, j + 1);
    }
  }

  /** The first alternative from `j` on that fits, as written in the line,
      with the answer `v` of the rest of the pattern. */
  function ProjectAnswer(s: string, start: nat, names: seq<string>, j: nat, v: Option<nat>): Option<(string, int)>
  {
    match FirstPrefix(s, start, names, j)
    case None => None
    case Some(i) =>
      match v
      case None => None
      case Some(x) => Some((s[start..start + |names[i]|], x))
  }

  /** When the rest of the pattern gives the same answer `v` after every
      alternative that fits, the alternation picks the first alternative that
      fits and answers `v`. */
  lemma {:induction false} TryProjectSpec(s: string, start: nat, names: seq<string>, j: nat,
                                          rest: nat -> Option<nat>, v: Option<nat>)
    requires forall i :: 0 <= i < |names| && CiPrefixAt(s, start, names[i]) ==> rest(start + |names[i]|) == v
    ensures TryProject(s, start, names, j, rest) == ProjectAnswer(s, start, names, j, v)
    decreases |names| - j
  {
    if j < |names| {
      TryProjectSpec(s, start, names, j + 1, rest, v);
    }
  }

  /** The environment the line begins with, if any. */
  function EnvOf(s: string, i: nat): (r: Option<nat>)
    ensures r.Some? ==> i <= r.value < |Envs| && EnvAt(s, r.value)
    ensures r.None? ==> forall k :: i <= k < |Envs| ==> !EnvAt(s, k)
    decreases |Envs| - i
  {
    if i >= |Envs| then None
    else if EnvAt(s, i) then Some(i)
    else EnvOf(s, i + 1)
  }

  /** The environments begin with different letters, so at most one fits. */
  lemma EnvUnique(s: string, i: nat, k: nat)
    requires i < |Envs| && k < |Envs| && EnvAt(s, i) && EnvAt(s, k)
    ensures i == k
  {
    assert Lower(s[0..|Envs[i]|])[0] == LowerChar(s[0]) == Envs[i][0];
    assert Lower(s[0..|Envs[k]|])[0] == LowerChar(s[0]) == Envs[k][0];
  }

  lemma {:induction false} TryEnvSpec(s: string, names: seq<string>, i: nat)
    ensures TryEnv(s, names, i) ==
      match EnvOf(s, i)
      case None => None
      case Some(e) => TryProject(s, |Envs[e]| + 1, names, 0, RestFrom(s))
    decreases |Envs| - i
  {
    if i < |Envs| {
      TryEnvSpec(s, names, i + 1);
      if EnvAt(s, i) {
        var later := EnvOf(s, i + 1);
        if later.Some? {
          EnvUnique(s, i, later.value);
        }
      }
    }
  }

  /** What the pattern accepts, without the search: the line begins with an
      environment and a dash; the first project in the listed order that
      begins the rest, ignoring case, is group 2, as written in the line; the
      line ends with ` - `, digits and at most one newline, with no other
      newline; the final digits are group 3. */
  function MatchSpec(s: string, names: seq<string>): Option<(string, int)>
  {
    match EnvOf(s, 0)
    case None => None
    case Some(e) =>
      var start := |Envs[e]| + 1;
      ProjectAnswer(s, start, names, 0, RestAnswer(s, start))
  }

  /** What the rest of the pattern answers from `p`, in closed form. */
  function RestAnswer(s: string, p: nat): Option<nat>
  {
    if RestOk(s, p) then Some(TailValue(s)) else None
  }

  /** With plain alternatives, the backtracking search accepts exactly what
      the closed form says. */
  lemma MatchWithSpec(s: string, names: seq<string>)
    requires forall i :: 0 <= i < |names| ==> Plain(names[i])
    ensures TryEnv(s, names, 0) == MatchSpec(s, names)
  {
    TryEnvSpec(s, names, 0);
    var e := EnvOf(s, 0);
    if e.Some? {
      TryProjectPlain(s, |Envs[e.value]| + 1, names);
    }
  }

  /** With plain alternatives, the project alternation followed by the rest
      of the pattern picks the first alternative that fits, if the rest
      matches at all. */
  lemma TryProjectPlain(s: string, start: nat, names: seq<string>)
    requires forall i :: 0 <= i < |names| ==> Plain(names[i])
    ensures TryProject(s, start, names, 0, RestFrom(s)) == ProjectAnswer(s, start, names, 0, RestAnswer(s, start))
  {
    RestAfterEach(s, start, names);
    TryProjectSpec(s, start, names, 0, RestFrom(s), RestAnswer(s, start));
  }

  lemma RestAfterEach(s: string, start: nat, names: seq<string>)
    requires forall i :: 0 <= i < |names| ==> Plain(names[i])
    ensures forall i :: 0 <= i < |names| && CiPrefixAt(s, start, names[i]) ==>
      RestFrom(s)(start + |names[i]|) == RestAnswer(s, start)
  {
    forall i | 0 <= i < |names| && CiPrefixAt(s, start, names[i])
      ensures RestFrom(s)(start + |names[i]|) == RestAnswer(s, start)
    {
      RestFromAfter(s, start, names[i]);
    }
  }


  /** After a plain alternative, the rest of the pattern answers as
      `RestOk` says from where the alternative began. */
  lemma RestFromAfter(s: string, start: nat, name: string)
    requires CiPrefixAt(s, start, name) && Plain(name)
    ensures RestFrom(s)(start + |name|) == if RestOk(s, start) then Some(TailValue(s)) else None
  {
    RestAfterPlain(s, start, name);
    RestFromSpec(s, start + |name|);
  }


  /** `line_re` accepts exactly what the closed form says. */
  lemma MatchLineSpec(s: string)
    ensures MatchLine(s) == MatchSpec(s, Projects)
  {
    ProjectsPlain();
    MatchWithSpec(s, Projects);
  }

  // ---------------------------------------------------------------- summing

  /** Folding one more item into the totals of the matched items. */
  lemma AccumulateStep<R>(xs: seq<R>, x: R, f: R -> Option<Tally.Entry>)
    ensures Tally.Accumulate(Seqs.FilterMap(xs + [x], f)) ==
      match f(x)
      case Some(e) => Tally.AddTo(Tally.Accumulate(Seqs.FilterMap(xs, f)), e.0, e.1)
      case None => Tally.Accumulate(Seqs.FilterMap(xs, f))
  {
    Seqs.FilterMapAppend(xs, [x], f);
    assert [x][1..] == [];
    var es := Seqs.FilterMap(xs + [x], f);
    if f(x).Some? {
      assert es[..|es| - 1] == Seqs.FilterMap(xs, f);
    } else {
      assert es == Seqs.FilterMap(xs, f);
    }
  }

  /** The loop over the report lines (lines 17-23): a matched line adds its
      value to its project's total, inserting the project on first sight. */
  method Summarise(lines: seq<string>) returns (data: seq<Tally.Entry>)
    ensures data == Tally.Accumulate(Seqs.FilterMap(lines, MatchLine))
    ensures Tally.Keys(data) == Tally.FirstOccurrences(Tally.Keys(Seqs.FilterMap(lines, MatchLine)))
  {
    data := [];
    var i := 0;
    while i < |lines|
      invariant 0 <= i <= |lines|
      invariant data == Tally.Accumulate(Seqs.FilterMap(lines[..i], MatchLine))
    {
      assert lines[..i + 1] == lines[..i] + [lines[i]];
      AccumulateStep(lines[..i], lines[i], MatchLine);
      var m := MatchLine(lines[i]);
      if m.Some? {
        var (project, size) := m.value;
        data := Tally.AddTo(data, project, size);
      }
      i := i + 1;
    }
    assert lines[..i] == lines;
    Tally.AccumulateKeys(Seqs.FilterMap(lines, MatchLine));
  }

  /** Each project's total is the sum of the sizes of its matched lines;
      projects with no matched line are absent. */
  lemma SummaryTotals(lines: seq<string>, project: string)
    ensures var matched := Seqs.FilterMap(lines, MatchLine);
      Tally.Get(Tally.Accumulate(matched), project) ==
        if project in Tally.Keys(matched) then Some(Tally.Total(matched, project)) else None
  {
    Tally.AccumulateGet(Seqs.FilterMap(lines, MatchLine), project);
  }

  /** The closed form, read forwards: a line with an environment, a listed
      project after it and a well-formed tail matches with the first such
      project, as written, and the final digits. */
  lemma MatchAccepts(s: string, names: seq<string>, e: nat, j: nat)
    requires forall i :: 0 <= i < |names| ==> Plain(names[i])
    requires e < |Envs| && EnvOf(s, 0) == Some(e)
    requires FirstPrefix(s, |Envs[e]| + 1, names, 0) == Some(j)
    requires RestOk(s, |Envs[e]| + 1)
    ensures TryEnv(s, names, 0) == Some((s[|Envs[e]| + 1..|Envs[e]| + 1 + |names[j]|], TailValue(s)))
  {
    MatchWithSpec(s, names);
    var start := |Envs[e]| + 1;
    assert RestAnswer(s, start) == Some(TailValue(s));
    assert MatchSpec(s, names) == ProjectAnswer(s, start, names, 0, RestAnswer(s, start));
  }

  /** A line led by `dev-` in any case. */
  lemma DevEnv(s: string)
    requires |s| >= 4 && Lower(s[..4]) == "dev-"
    ensures EnvAt(s, 0)
  {
    assert Lower(s[..3]) == Lower(s[..4])[..3];
    assert LowerChar(s[3]) == Lower(s[..4])[3];
  }

  /** A line led by `dev-` and then `aco` in any case. */
  lemma DevAco(s: string)
    requires |s| >= 7 && Lower(s[..4]) == "dev-" && Lower(s[4..7]) == "aco"
    ensures EnvOf(s, 0) == Some(0) && FirstPrefix(s, 4, Projects, 0) == Some(0)
  {
    DevEnv(s);
    assert CiPrefixAt(s, 4, Projects[0]);
  }

  /** A line ending ` - 5`, or ` - 7` and a newline, after eleven characters. */
  lemma SizeAtTen(s: string, d: char)
    requires |s| == 11 || (|s| == 12 && s[11] == '\n')
    requires s[7..10] == " - " && s[10] == d && '0' <= d <= '9' && s[..7] != [] && '\n' !in s[4..7]
    ensures RestOk(s, 4) && TailValue(s) == d as int - '0' as int
  {
    var b := Body(s);
    assert |b| == 11;
    assert b[..10][9] == s[7..10][2] == ' ';
    assert TrailingDigits(b[..10]) == 0;
    assert TrailingDigits(b) == 1;
    assert b[7..10] == " - ";
    assert forall k :: 4 <= k < 7 ==> s[k] == s[4..7][k - 4];
    assert TailShape(s) && TailStart(s) == 7;
    assert b[10..] == [d] && [d][..0] == [];
    assert DigitsValue([d]) == d as int - '0' as int;
  }

  /** A `dev-aco` line, in any case, ending in a one-digit size: it matches
      with the project as written in the line. */
  lemma DevAcoLine(s: string, d: char)
    requires |s| == 11 || (|s| == 12 && s[11] == '\n')
    requires Lower(s[..4]) == "dev-" && Lower(s[4..7]) == "aco"
    requires s[7..10] == " - " && s[10] == d && '0' <= d <= '9'
    ensures MatchLine(s) == Some((s[4..7], d as int - '0' as int))
  {
    DevAco(s);
    forall k | 4 <= k < 7 ensures s[k] != '\n' {
      assert LowerChar(s[k]) == Lower(s[4..7])[k - 4];
    }
    assert '\n' !in s[4..7];
    SizeAtTen(s, d);
    MatchLineSpec(s);
    assert RestAnswer(s, 4) == Some(d as int - '0' as int);
    assert MatchSpec(s, Projects) == ProjectAnswer(s, 4, Projects, 0, RestAnswer(s, 4));
  }

  lemma UpperCaseLine(s: string)
    requires s == "DEV-ACO - 5\n"
    ensures MatchLine(s) == Some(("ACO", 5))
  {
    assert s[..4] == "DEV-" && Lower("DEV-") == "dev-";
    assert s[4..7] == "ACO" && Lower("ACO") == "aco";
    DevAcoLine(s, '5');
  }

  lemma LowerCaseLine(s: string)
    requires s == "dev-aco - 7"
    ensures MatchLine(s) == Some(("aco", 7))
  {
    assert s[..4] == "dev-" && Lower("dev-") == "dev-";
    assert s[4..7] == "aco" && Lower("aco") == "aco";
    DevAcoLine(s, '7');
  }

  /** Two matched items with different keys give two totals, in order. */
  lemma AccumulateTwo<R>(x: R, y: R, f: R -> Option<Tally.Entry>)
    requires f(x).Some? && f(y).Some? && f(x).value.0 != f(y).value.0
    ensures Tally.Accumulate(Seqs.FilterMap([x, y], f)) == [f(x).value, f(y).value]
  {
    var e1, e2 := f(x).value, f(y).value;
    AccumulateStep([], x, f);
    assert [x] == [] + [x];
    assert Tally.Accumulate(Seqs.FilterMap([x], f)) == Tally.AddTo([], e1.0, e1.1) == [e1];
    AccumulateStep([x], y, f);
    assert [x, y] == [x] + [y];
    assert Tally.Get([e1], e2.0) == None;
    assert Tally.Put([e1], e2.0, e2.1) == [e1] + Tally.Put([], e2.0, e2.1) == [e1, e2];
  }

  /** The match ignores case but the key keeps it: `ACO` and `aco` are
      totalled apart, and an upper-case environment is accepted. */
  lemma CaseKeepsKeysApart(lines: seq<string>)
    requires lines == ["DEV-ACO - 5\n", "dev-aco - 7"]
    ensures Tally.Accumulate(Seqs.FilterMap(lines, MatchLine)) == [("ACO", 5), ("aco", 7)]
  {
    UpperCaseLine(lines[0]);
    LowerCaseLine(lines[1]);
    AccumulateTwo(lines[0], lines[1], MatchLine);
    assert lines == [lines[0], lines[1]];
  }

  /** A line not led by an environment and a dash counts for nothing. */
  lemma NoDashAfterEnv(s: string)
    requires s == "dev aco - 5"
    ensures MatchLine(s) == None
  {
    MatchLineSpec(s);
    forall i | 0 <= i < |Envs| ensures !EnvAt(s, i) {
      assert CiPrefixAt(s, 0, Envs[i]) ==> Lower(s[0..|Envs[i]|])[0] == LowerChar(s[0]) == Envs[i][0];
    }
  }

  /** Every project name begins with a letter other than `z`. */
  lemma ProjectsNotZ()
    ensures forall j :: 0 <= j < |Projects| ==> Projects[j] != [] && Projects[j][0] != 'z'
  {
  }

  /** A case-insensitive prefix shares its first letter, in lower case. */
  lemma CiPrefixFirst(s: string, start: nat, name: string)
    requires name != [] && start < |s|
    ensures CiPrefixAt(s, start, name) ==> LowerChar(s[start]) == name[0]
  {
    if CiPrefixAt(s, start, name) {
      assert Lower(s[start..start + |name|])[0] == LowerChar(s[start]);
    }
  }

  /** A project not in the list counts for nothing. */
  lemma UnknownProject(s: string)
    requires s == "dev-zeta - 5"
    ensures MatchLine(s) == None
  {
    DevEnv(s);
    NoProjectAfterDev(s);
  }

  /** After `dev-`, a word beginning with `z` is no listed project. */
  lemma NoProjectAfterDev(s: string)
    requires EnvAt(s, 0) && 4 < |s| && LowerChar(s[4]) == 'z'
    ensures MatchLine(s) == None
  {
    MatchLineSpec(s);
    assert EnvOf(s, 0) == Some(0);
    ProjectsNotZ();
    NoPrefixFits(s, 4, Projects, 'z');
    assert MatchSpec(s, Projects) == ProjectAnswer(s, 4, Projects, 0, RestAnswer(s, 4));
  }

  /** When no alternative begins with the letter at `start`, none fits. */
  lemma NoPrefixFits(s: string, start: nat, names: seq<string>, c: char)
    requires forall j :: 0 <= j < |names| ==> names[j] != [] && names[j][0] != c
    requires start < |s| && LowerChar(s[start]) == c
    ensures FirstPrefix(s, start, names, 0) == None
  {
    var r := FirstPrefix(s, start, names, 0);
    if r.Some? {
      CiPrefixFirst(s, start, names[r.value]);
    }
  }

  /** The size must end the line. */
  lemma SizeNotLast(s: string)
    requires s == "dev-aco - 5 GB"
    ensures MatchLine(s) == None
  {
    MatchLineSpec(s);
    assert Body(s) == s;
    assert TrailingDigits(s) == 0;
  }

  /** `.` does not cross a newline inside the line. */
  lemma NewlineInside(s: string)
    requires s == "dev-aco\nx - 5"
    ensures MatchLine(s) == None
  {
    MatchLineSpec(s);
    assert Body(s) == s;
    assert TrailingDigits(s[..12]) == 0;
    assert TrailingDigits(s) == 1;
    assert TailStart(s) == 9;
    assert s[7] == '\n';
  }
}
