/** The printer connection check (test_printer_connection.py): `send_gcode`
    writes one G-code command and classifies the printer's reply lines, and
    `test_connection` pulls temperatures and a position out of the replies
    with regular expressions. The serial port's replies are a finite
    sequence of `readline()` results; running out of them is the timeout. */
module PrinterConnection {
  import opened Types
  import opened Text

  /** What one non-blank reply line means to `send_gcode`. */
  datatype LineVerdict = Acknowledged | Refused | KeepReading

  /** The "ok" test comes first, so a line such as "ok error" is a success. */
  function Classify(line: string): (v: LineVerdict)
    ensures v == Acknowledged <==> StartsWith(Lower(line), "ok")
    ensures v == Refused <==>
              !StartsWith(Lower(line), "ok")
              && (Contains(Lower(line), "error") || Contains(Lower(line), "resend"))
  {
    var lower := Lower(line);
    if StartsWith(lower, "ok") then Acknowledged
    else if Contains(lower, "error") || Contains(lower, "resend") then Refused
    else KeepReading
  }

  /** The line a read contributes to `responses`: its stripped text, unless
      the read failed or the line is blank. */
  function Recorded1(r: ReadResult): (lines: seq<string>)
    ensures |lines| <= 1
    ensures lines != [] <==> r.Line? && Strip(r.raw) != ""
  {
    if r.Line? && Strip(r.raw) != "" then [Strip(r.raw)] else []
  }

  /** `responses` after the first `n` reads of `rs`, in order. */
  function Recorded(rs: seq<ReadResult>, n: nat): seq<string>
    requires n <= |rs|
    decreases n
  {
    if n == 0 then [] else Recorded(rs, n - 1) + Recorded1(rs[n - 1])
  }

  /** A read that ends `send_gcode`'s loop. */
  predicate Decisive(r: ReadResult)
  {
    r.Line? && Strip(r.raw) != "" && Classify(Strip(r.raw)) != KeepReading
  }

  predicate OkLine(r: ReadResult)
  {
    r.Line? && Classify(Strip(r.raw)) == Acknowledged
  }

  /** Index of the first decisive read, or `|rs|` when there is none. */
  function FirstDecisive(rs: seq<ReadResult>, from: nat): (k: nat)
    requires from <= |rs|
    requires forall j :: 0 <= j < from ==> !Decisive(rs[j])
    ensures from <= k <= |rs|
    ensures forall j :: 0 <= j < k ==> !Decisive(rs[j])
    ensures k < |rs| ==> Decisive(rs[k])
    decreases |rs| - from
  {
    if from == |rs| || Decisive(rs[from]) then from else FirstDecisive(rs, from + 1)
  }

  /** The first decisive read is the one no earlier read pre-empts. */
  lemma FirstDecisiveAt(rs: seq<ReadResult>, k: nat)
    requires k < |rs| && Decisive(rs[k])
    requires forall j :: 0 <= j < k ==> !Decisive(rs[j])
    ensures FirstDecisive(rs, 0) == k
  {
    var f := FirstDecisive(rs, 0);
    assert !Decisive(rs[f]) ==> f == |rs|;
  }

  /** The result once read `k` decides the exchange. */
  lemma DecidedAt(rs: seq<ReadResult>, k: nat)
    requires k < |rs| && Decisive(rs[k])
    requires forall j :: 0 <= j < k ==> !Decisive(rs[j])
    ensures SendGcodeResult(true, rs) == (Classify(Strip(rs[k].raw)) == Acknowledged, Join(Recorded(rs, k + 1), "\n"))
  {
    FirstDecisiveAt(rs, k);
  }

  /** One read of the loop, before the first decisive one: it appends its
      line, if any, and either decides the result or lets the loop go on. */
  lemma ReadStep(rs: seq<ReadResult>, i: nat)
    requires i < |rs| && i <= FirstDecisive(rs, 0)
    ensures Recorded(rs, i + 1) == Recorded(rs, i) + Recorded1(rs[i])
    ensures !Decisive(rs[i]) ==> i + 1 <= FirstDecisive(rs, 0)
    ensures Decisive(rs[i]) ==>
              SendGcodeResult(true, rs) == (Classify(Strip(rs[i].raw)) == Acknowledged, Join(Recorded(rs, i + 1), "\n"))
  {
    if Decisive(rs[i]) {
      DecidedAt(rs, i);
    }
  }

  const TimeoutNoOk := "Timeout (no 'ok' received). Responses: "
  const TimeoutSilent := "Timeout (no response received)"

  /** The `(success, response)` pair `send_gcode` returns for an open or
      unopened port and the reads `rs` that fit within its timeout. */
  function SendGcodeResult(portOpen: bool, rs: seq<ReadResult>): (bool, string)
  {
    if !portOpen then (false, "Serial port not open")
    else
      var k := FirstDecisive(rs, 0);
      if k < |rs| then
        (Classify(Strip(rs[k].raw)) == Acknowledged, Join(Recorded(rs, k + 1), "\n"))
      else if Recorded(rs, |rs|) != [] then
        (false, TimeoutNoOk + Join(Recorded(rs, |rs|), "; "))
      else
        (false, TimeoutSilent)
  }

  /** `send_gcode(ser, command)`. `written` is what goes to the port: the
      command and a newline, or nothing when the port is not open. */
  method SendGcode(portOpen: bool, command: string, replies: seq<ReadResult>)
    returns (success: bool, response: string, written: Option<string>)
    ensures success == SendGcodeResult(portOpen, replies).0
    ensures response == SendGcodeResult(portOpen, replies).1
    ensures portOpen ==> written == Some(command + "\n")
    ensures !portOpen ==> written == None
  {
    if !portOpen {
      return false, "Serial port not open", None;
    }
    written := Some(command + "\n");
    var responses: seq<string> := [];
    var i := 0;
    while i < |replies|
      invariant 0 <= i <= |replies|
      invariant responses == Recorded(replies, i)
      invariant i <= FirstDecisive(replies, 0)
    {
      ReadStep(replies, i);
      var r := replies[i];
      if r.Line? && Strip(r.raw) != "" {
        var line := Strip(r.raw);
        responses := responses + [line];
        var verdict := Classify(line);
        if verdict != KeepReading {
          return verdict == Acknowledged, Join(responses, "\n"), written;
        }
      }
      i := i + 1;
    }
    TimeoutResult(replies);
    if |responses| > 0 {
      return false, TimeoutNoOk + Join(responses, "; "), written;
    }
    return false, TimeoutSilent, written;
  }

  /** `send_gcode` succeeds exactly when the port is open and some read is a
      line starting with "ok" (after strip, any case) that no earlier error
      or resend line pre-empts. */
  lemma SendGcodeSuccessIff(portOpen: bool, rs: seq<ReadResult>)
    ensures SendGcodeResult(portOpen, rs).0 <==>
              portOpen && exists k :: 0 <= k < |rs| && OkLine(rs[k]) && forall j :: 0 <= j < k ==> !Decisive(rs[j])
  {
    if portOpen {
      var k := FirstDecisive(rs, 0);
      if exists k' :: 0 <= k' < |rs| && OkLine(rs[k']) && forall j :: 0 <= j < k' ==> !Decisive(rs[j]) {
        var k' :| 0 <= k' < |rs| && OkLine(rs[k']) && forall j :: 0 <= j < k' ==> !Decisive(rs[j]);
        assert Decisive(rs[k']);
        assert k == k';
      }
    }
  }

  /** A line with text and no whitespace at either end. */
  predicate Trimmed(l: string)
  {
    l != [] && !IsSpace(l[0]) && !IsSpace(l[|l| - 1])
  }

  /** Every recorded line is non-blank and carries no surrounding whitespace. */
  lemma {:induction false} RecordedAreStripped(rs: seq<ReadResult>, n: nat)
    requires n <= |rs|
    ensures forall l :: l in Recorded(rs, n) ==> Trimmed(l)
    decreases n
  {
    if n > 0 {
      RecordedAreStripped(rs, n - 1);
      Recorded1Stripped(rs[n - 1]);
      StrippedJoin(Recorded(rs, n - 1), Recorded1(rs[n - 1]));
    }
  }

  lemma StrippedJoin(prev: seq<string>, add: seq<string>)
    requires forall l :: l in prev ==> Trimmed(l)
    requires forall l :: l in add ==> Trimmed(l)
    ensures forall l :: l in prev + add ==> Trimmed(l)
  {
    forall l | l in prev + add
      ensures Trimmed(l)
    {
      if l !in prev {
        assert l in add;
      }
    }
  }

  /** The line one read records, if any, is stripped. */
  lemma Recorded1Stripped(r: ReadResult)
    ensures forall l :: l in Recorded1(r) ==> Trimmed(l)
  {
    if r.Line? {
      StripSlice(r.raw);
    }
  }

  /** Reads after the first `n` do not change what those `n` recorded. */
  lemma {:induction false} RecordedPrefix(rs: seq<ReadResult>, more: seq<ReadResult>, n: nat)
    requires n <= |rs|
    ensures Recorded(rs + more, n) == Recorded(rs, n)
    decreases n
  {
    if n > 0 {
      var all := rs + more;
      RecordedPrefix(rs, more, n - 1);
      assert all[n - 1] == rs[n - 1];
      assert Recorded(all, n) == Recorded(all, n - 1) + Recorded1(rs[n - 1]);
    }
  }

  /** Failed reads and blank lines add nothing to the recorded lines. */
  lemma RecordedSkips(rs: seq<ReadResult>, r: ReadResult)
    requires r.ReadFailed? || Strip(r.raw) == ""
    ensures Recorded(rs + [r], |rs| + 1) == Recorded(rs, |rs|)
  {
    var all := rs + [r];
    RecordedPrefix(rs, [r], |rs|);
    assert all[|rs|] == r;
    assert Recorded1(r) == [];
    assert Recorded(all, |rs| + 1) == Recorded(all, |rs|) + [];
  }

  /** A decisive line ends the reply: it is the last line recorded. */
  lemma DecisiveLineIsLast(rs: seq<ReadResult>)
    requires FirstDecisive(rs, 0) < |rs|
    ensures var k := FirstDecisive(rs, 0);
            var lines := Recorded(rs, k + 1);
            lines != [] && lines[|lines| - 1] == Strip(rs[k].raw)
  {
  }

  /** Reads after the decisive one change nothing: `send_gcode` has
      returned before it makes them. */
  lemma LaterReadsIgnored(portOpen: bool, rs: seq<ReadResult>, more: seq<ReadResult>)
    requires FirstDecisive(rs, 0) < |rs|
    ensures SendGcodeResult(portOpen, rs + more) == SendGcodeResult(portOpen, rs)
  {
    if portOpen {
      var k := FirstDecisive(rs, 0);
      var all := rs + more;
      forall j | 0 <= j < k
        ensures !Decisive(all[j])
      {
        assert all[j] == rs[j];
      }
      assert all[k] == rs[k];
      DecidedAt(rs, k);
      DecidedAt(all, k);
      RecordedPrefix(rs, more, k + 1);
    }
  }

  /** Running out of reads is a failure; the message lists the recorded lines
      joined by "; " or says no response came. */
  lemma TimeoutResult(rs: seq<ReadResult>)
    requires forall j :: 0 <= j < |rs| ==> !Decisive(rs[j])
    ensures !SendGcodeResult(true, rs).0
    ensures Recorded(rs, |rs|) == [] ==> SendGcodeResult(true, rs).1 == TimeoutSilent
    ensures Recorded(rs, |rs|) != [] ==>
              SendGcodeResult(true, rs).1 == TimeoutNoOk + Join(Recorded(rs, |rs|), "; ")
  {
    assert FirstDecisive(rs, 0) == |rs|;
  }

  // Regular-expression extraction in `test_connection`.

  /** Character classes of the patterns: `[\d.]`, `[\d.-]` and `\s` (ASCII digits). */
  datatype CharClass = DigitsDots | DigitsDotsMinus | Whitespace

  predicate InClass(c: char, cls: CharClass)
  {
    match cls
    case DigitsDots => '0' <= c <= '9' || c == '.'
    case DigitsDotsMinus => '0' <= c <= '9' || c == '.' || c == '-'
    case Whitespace => IsSpace(c)
  }

  predicate AllIn(w: string, cls: CharClass)
  {
    forall k :: 0 <= k < |w| ==> InClass(w[k], cls)
  }

  /** `s` has no `cls` character at offset `j` (or ends there). */
  predicate RunEnds(s: string, j: int, cls: CharClass)
  {
    j == |s| || (0 <= j < |s| && !InClass(s[j], cls))
  }

  /** Length of the longest run of `cls` characters starting at `i`: what a
      greedy `[...]+`/`\s+` consumes. */
  function RunLength(s: string, i: nat, cls: CharClass): (n: nat)
    requires i <= |s|
    ensures i + n <= |s|
    decreases |s| - i
  {
    if i < |s| && InClass(s[i], cls) then 1 + RunLength(s, i + 1, cls) else 0
  }

  /** Every character of the greedy run is in the class, and the one after
      it (if any) is not. */
  lemma {:induction false} RunLengthInClass(s: string, i: nat, cls: CharClass)
    requires i <= |s|
    ensures forall k :: i <= k < i + RunLength(s, i, cls) ==> InClass(s[k], cls)
    ensures RunEnds(s, i + RunLength(s, i, cls), cls)
    decreases |s| - i
  {
    if i < |s| && InClass(s[i], cls) {
      RunLengthInClass(s, i + 1, cls);
    }
  }

  lemma {:induction false} RunLengthAtLeast(s: string, i: nat, n: nat, cls: CharClass)
    requires i + n <= |s|
    requires forall k :: i <= k < i + n ==> InClass(s[k], cls)
    ensures n <= RunLength(s, i, cls)
    ensures RunEnds(s, i + n, cls) ==> RunLength(s, i, cls) == n
    decreases n
  {
    if n > 0 {
      assert InClass(s[i], cls);
      RunLengthAtLeast(s, i + 1, n - 1, cls);
    }
  }

  lemma OccursSplit(s: string, u: string, v: string, i: int)
    requires OccursAt(s, u + v, i)
    ensures OccursAt(s, u, i) && OccursAt(s, v, i + |u|)
  {
    assert s[i..i + |u|] == s[i..i + |u + v|][..|u|];
    assert s[i + |u|..i + |u| + |v|] == s[i..i + |u + v|][|u|..];
  }

  lemma OccursJoin(s: string, u: string, v: string, i: int)
    requires OccursAt(s, u, i) && OccursAt(s, v, i + |u|)
    ensures OccursAt(s, u + v, i)
  {
    assert s[i..i + |u| + |v|] == s[i..i + |u|] + s[i + |u|..i + |u| + |v|];
  }

  /** The greedy run at `i` as a string: all in `cls`, written at `i`, and
      followed by no further `cls` character. */
  lemma RunPart(s: string, i: nat, cls: CharClass)
    requires i <= |s|
    ensures var n := RunLength(s, i, cls);
            OccursAt(s, s[i..i + n], i) && AllIn(s[i..i + n], cls) && RunEnds(s, i + n, cls)
  {
    var n := RunLength(s, i, cls);
    var w := s[i..i + n];
    RunLengthInClass(s, i, cls);
    forall k | 0 <= k < |w|
      ensures InClass(w[k], cls)
    {
      assert w[k] == s[i + k];
    }
  }

  /** A run `w` of `cls` characters written at `i` lies within the greedy run
      there, and is all of it when no `cls` character follows. */
  lemma RunAt(s: string, i: nat, w: string, cls: CharClass)
    requires OccursAt(s, w, i) && AllIn(w, cls)
    ensures |w| <= RunLength(s, i, cls)
    ensures RunEnds(s, i + |w|, cls) ==> RunLength(s, i, cls) == |w|
  {
    forall k | i <= k < i + |w|
      ensures InClass(s[k], cls)
    {
      assert s[k] == s[i..i + |w|][k - i];
    }
    RunLengthAtLeast(s, i, |w|, cls);
  }

  /** One element of a pattern without alternation: a literal character, or
      a captured greedy run `([cls]+)`. */
  datatype Element = Lit(c: char) | Run(cls: CharClass)

  function RunCount(pat: seq<Element>): nat
  {
    if pat == [] then 0 else (if pat[0].Run? then 1 else 0) + RunCount(pat[1..])
  }

  /** The pattern matched at offset `i` (Python's `re.match` on `s[i:]`), with
      the text of every run, in order. Each run takes every `cls` character
      it can and never gives one back. */
  function Match(s: string, i: nat, pat: seq<Element>): (r: Option<seq<string>>)
    requires i <= |s|
    ensures r.Some? ==> |r.value| == RunCount(pat)
    decreases |pat|
  {
    if pat == [] then Some([])
    else
      match pat[0]
      case Lit(c) =>
        if i < |s| && s[i] == c then Match(s, i + 1, pat[1..]) else None
      case Run(cls) =>
        var n := RunLength(s, i, cls);
        if n == 0 then None
        else
          match Match(s, i + n, pat[1..])
          case None => None
          case Some(g) => Some([s[i..i + n]] + g)
  }

  /** The text the pattern describes when its runs are `g`. */
  function Render(pat: seq<Element>, g: seq<string>): string
    requires |g| == RunCount(pat)
    decreases |pat|
  {
    if pat == [] then ""
    else
      match pat[0]
      case Lit(c) => [c] + Render(pat[1..], g)
      case Run(_) => g[0] + Render(pat[1..], g[1..])
  }

  /** `g` supplies each run of the pattern with one or more characters of
      its class. */
  predicate Fits(pat: seq<Element>, g: seq<string>)
    decreases |pat|
  {
    if pat == [] then g == []
    else
      match pat[0]
      case Lit(_) => Fits(pat[1..], g)
      case Run(cls) => g != [] && g[0] != [] && AllIn(g[0], cls) && Fits(pat[1..], g[1..])
  }

  lemma {:induction false} FitsCount(pat: seq<Element>, g: seq<string>)
    requires Fits(pat, g)
    ensures |g| == RunCount(pat)
    decreases |pat|
  {
    if pat != [] {
      match pat[0]
      case Lit(_) => FitsCount(pat[1..], g);
      case Run(_) => FitsCount(pat[1..], g[1..]);
    }
  }

  /** Rendered at `i` in `s`, no run of `g` could have gone on: the character
      after each run is outside its class. */
  predicate Maximal(s: string, i: int, pat: seq<Element>, g: seq<string>)
    requires |g| == RunCount(pat)
    decreases |pat|
  {
    if pat == [] then true
    else
      match pat[0]
      case Lit(_) => Maximal(s, i + 1, pat[1..], g)
      case Run(cls) =>
        RunEnds(s, i + |g[0]|, cls) && Maximal(s, i + |g[0]|, pat[1..], g[1..])
  }

  /** A match past a leading literal: the character is there and the rest
      of the pattern matches after it with the same runs. */
  lemma MatchLitStep(s: string, i: nat, pat: seq<Element>, g: seq<string>)
    requires i <= |s| && pat != [] && pat[0].Lit? && Match(s, i, pat) == Some(g)
    ensures i < |s| && s[i] == pat[0].c && Match(s, i + 1, pat[1..]) == Some(g)
  {
  }

  lemma MatchLitBuild(s: string, i: nat, pat: seq<Element>, g: seq<string>)
    requires i < |s| && pat != [] && pat[0].Lit? && s[i] == pat[0].c
    requires Match(s, i + 1, pat[1..]) == Some(g)
    ensures Match(s, i, pat) == Some(g)
  {
  }

  /** A match past a leading run: the first run is a maximal, nonempty run
      of the class written at `i`, and the rest of the pattern matches after
      it with the other runs. */
  lemma MatchRunStep(s: string, i: nat, pat: seq<Element>, g: seq<string>)
    requires i <= |s| && pat != [] && pat[0].Run? && Match(s, i, pat) == Some(g)
    ensures g != [] && g[0] != [] && OccursAt(s, g[0], i) && AllIn(g[0], pat[0].cls)
    ensures RunEnds(s, i + |g[0]|, pat[0].cls) && Match(s, i + |g[0]|, pat[1..]) == Some(g[1..])
  {
    var n := RunLength(s, i, pat[0].cls);
    var rest := Match(s, i + n, pat[1..]).value;
    assert g == [s[i..i + n]] + rest;
    assert g[1..] == rest;
    RunPart(s, i, pat[0].cls);
  }

  /** A greedy run at `i` followed by a match of the rest is a match. */
  lemma MatchRunBuild(s: string, i: nat, pat: seq<Element>, g: seq<string>)
    requires i <= |s| && pat != [] && pat[0].Run? && g != []
    requires RunLength(s, i, pat[0].cls) == |g[0]| > 0 && i + |g[0]| <= |s| && s[i..i + |g[0]|] == g[0]
    requires Match(s, i + |g[0]|, pat[1..]) == Some(g[1..])
    ensures Match(s, i, pat) == Some(g)
  {
    assert g == [g[0]] + g[1..];
  }

  /** The runs `Match` finds fit the pattern. */
  lemma {:induction false} MatchFits(s: string, i: nat, pat: seq<Element>, g: seq<string>)
    requires i <= |s| && Match(s, i, pat) == Some(g)
    ensures Fits(pat, g)
    decreases |pat|, 1
  {
    if pat != [] {
      if pat[0].Lit? {
        MatchFitsLit(s, i, pat, g);
      } else {
        MatchFitsRun(s, i, pat, g);
      }
    }
  }

  /** `MatchFits` for a pattern that starts with a literal. */
  lemma {:induction false} MatchFitsLit(s: string, i: nat, pat: seq<Element>, g: seq<string>)
    requires i <= |s| && Match(s, i, pat) == Some(g) && pat != [] && pat[0].Lit?
    ensures Fits(pat, g)
    decreases |pat|, 0
  {
    MatchLitStep(s, i, pat, g);
    MatchFits(s, i + 1, pat[1..], g);
  }

  /** `MatchFits` for a pattern that starts with a run. */
  lemma {:induction false} MatchFitsRun(s: string, i: nat, pat: seq<Element>, g: seq<string>)
    requires i <= |s| && Match(s, i, pat) == Some(g) && pat != [] && pat[0].Run?
    ensures Fits(pat, g)
    decreases |pat|, 0
  {
    MatchRunStep(s, i, pat, g);
    MatchFits(s, i + |g[0]|, pat[1..], g[1..]);
    FitsRunJoin(pat, g);
  }

  /** A nonempty run of the class, then runs that fit the rest, fit. */
  lemma FitsRunJoin(pat: seq<Element>, g: seq<string>)
    requires pat != [] && pat[0].Run? && g != [] && g[0] != []
    requires AllIn(g[0], pat[0].cls) && Fits(pat[1..], g[1..])
    ensures Fits(pat, g)
  {
  }

  /** A literal written at `i`, then the rest of the pattern's text. */
  lemma OccursLitJoin(s: string, i: nat, pat: seq<Element>, g: seq<string>)
    requires pat != [] && pat[0].Lit? && |g| == RunCount(pat)
    requires i < |s| && s[i] == pat[0].c && OccursAt(s, Render(pat[1..], g), i + 1)
    ensures OccursAt(s, Render(pat, g), i)
  {
    assert s[i..i + 1] == [pat[0].c];
    OccursJoin(s, [pat[0].c], Render(pat[1..], g), i);
  }

  /** A run's text written at `i`, then the rest of the pattern's text. */
  lemma OccursRunJoin(s: string, i: nat, pat: seq<Element>, g: seq<string>)
    requires pat != [] && pat[0].Run? && |g| == RunCount(pat) && g != []
    requires OccursAt(s, g[0], i) && OccursAt(s, Render(pat[1..], g[1..]), i + |g[0]|)
    ensures OccursAt(s, Render(pat, g), i)
  {
    OccursJoin(s, g[0], Render(pat[1..], g[1..]), i);
  }

  /** The pattern's text with the runs `Match` finds is what `s` holds at `i`. */
  lemma {:induction false} MatchOccurs(s: string, i: nat, pat: seq<Element>, g: seq<string>)
    requires i <= |s| && Match(s, i, pat) == Some(g)
    ensures |g| == RunCount(pat) && OccursAt(s, Render(pat, g), i)
    decreases |pat|, 1
  {
    if pat != [] {
      if pat[0].Lit? {
        MatchOccursLit(s, i, pat, g);
      } else {
        MatchOccursRun(s, i, pat, g);
      }
    }
  }

  /** `MatchOccurs` for a pattern that starts with a literal. */
  lemma {:induction false} MatchOccursLit(s: string, i: nat, pat: seq<Element>, g: seq<string>)
    requires i <= |s| && Match(s, i, pat) == Some(g) && pat != [] && pat[0].Lit?
    ensures |g| == RunCount(pat) && OccursAt(s, Render(pat, g), i)
    decreases |pat|, 0
  {
    MatchLitStep(s, i, pat, g);
    MatchOccurs(s, i + 1, pat[1..], g);
    OccursLitJoin(s, i, pat, g);
  }

  /** `MatchOccurs` for a pattern that starts with a run. */
  lemma {:induction false} MatchOccursRun(s: string, i: nat, pat: seq<Element>, g: seq<string>)
    requires i <= |s| && Match(s, i, pat) == Some(g) && pat != [] && pat[0].Run?
    ensures |g| == RunCount(pat) && OccursAt(s, Render(pat, g), i)
    decreases |pat|, 0
  {
    MatchRunStep(s, i, pat, g);
    MatchOccurs(s, i + |g[0]|, pat[1..], g[1..]);
    OccursRunJoin(s, i, pat, g);
  }

  /** No run `Match` finds could have taken one more character. */
  lemma {:induction false} MatchMaximal(s: string, i: nat, pat: seq<Element>, g: seq<string>)
    requires i <= |s| && Match(s, i, pat) == Some(g)
    ensures |g| == RunCount(pat) && Maximal(s, i, pat, g)
    decreases |pat|, 1
  {
    if pat != [] {
      if pat[0].Lit? {
        MatchMaximalLit(s, i, pat, g);
      } else {
        MatchMaximalRun(s, i, pat, g);
      }
    }
  }

  /** `MatchMaximal` for a pattern that starts with a literal. */
  lemma {:induction false} MatchMaximalLit(s: string, i: nat, pat: seq<Element>, g: seq<string>)
    requires i <= |s| && Match(s, i, pat) == Some(g) && pat != [] && pat[0].Lit?
    ensures |g| == RunCount(pat) && Maximal(s, i, pat, g)
    decreases |pat|, 0
  {
    MatchLitStep(s, i, pat, g);
    MatchMaximal(s, i + 1, pat[1..], g);
  }

  /** `MatchMaximal` for a pattern that starts with a run. */
  lemma {:induction false} MatchMaximalRun(s: string, i: nat, pat: seq<Element>, g: seq<string>)
    requires i <= |s| && Match(s, i, pat) == Some(g) && pat != [] && pat[0].Run?
    ensures |g| == RunCount(pat) && Maximal(s, i, pat, g)
    decreases |pat|, 0
  {
    MatchRunStep(s, i, pat, g);
    MatchMaximal(s, i + |g[0]|, pat[1..], g[1..]);
  }

  /** What `Match` finds is the pattern's text with runs that fit and that
      no character of `s` could have lengthened. */
  lemma MatchSound(s: string, i: nat, pat: seq<Element>)
    requires i <= |s| && Match(s, i, pat).Some?
    ensures var g := Match(s, i, pat).value;
            Fits(pat, g) && OccursAt(s, Render(pat, g), i) && Maximal(s, i, pat, g)
  {
    var g := Match(s, i, pat).value;
    MatchFits(s, i, pat, g);
    MatchOccurs(s, i, pat, g);
    MatchMaximal(s, i, pat, g);
  }

  /** Text of the pattern that starts with a literal has that character at
      `i` and the rest of the pattern's text after it. */
  lemma OccursLit(s: string, i: nat, pat: seq<Element>, g: seq<string>)
    requires pat != [] && pat[0].Lit? && |g| == RunCount(pat)
    requires OccursAt(s, Render(pat, g), i)
    ensures i < |s| && s[i] == pat[0].c && OccursAt(s, Render(pat[1..], g), i + 1)
  {
    OccursSplit(s, [pat[0].c], Render(pat[1..], g), i);
    assert s[i] == s[i..i + 1][0];
  }

  /** Text of the pattern that starts with a run has that run at `i` and the
      rest of the pattern's text after it. */
  lemma OccursRun(s: string, i: nat, pat: seq<Element>, g: seq<string>)
    requires pat != [] && pat[0].Run? && |g| == RunCount(pat)
    requires OccursAt(s, Render(pat, g), i)
    ensures g != [] && OccursAt(s, g[0], i) && OccursAt(s, Render(pat[1..], g[1..]), i + |g[0]|)
  {
    OccursSplit(s, g[0], Render(pat[1..], g[1..]), i);
  }

  /** Fitting, maximal runs for a pattern that starts with a run: the first
      is the greedy run at `i`, and the rest fit and are maximal after it. */
  lemma FirstRunGreedy(s: string, i: nat, pat: seq<Element>, g: seq<string>)
    requires pat != [] && pat[0].Run? && Fits(pat, g) && |g| == RunCount(pat)
    requires OccursAt(s, g[0], i) && Maximal(s, i, pat, g)
    ensures g[0] != [] && RunLength(s, i, pat[0].cls) == |g[0]| && s[i..i + |g[0]|] == g[0]
    ensures Fits(pat[1..], g[1..]) && Maximal(s, i + |g[0]|, pat[1..], g[1..])
  {
    RunAt(s, i, g[0], pat[0].cls);
  }

  /** Wherever the pattern's text occurs with fitting, maximal runs, `Match`
      finds exactly those runs. */
  lemma {:induction false} MatchComplete(s: string, i: nat, pat: seq<Element>, g: seq<string>)
    requires Fits(pat, g)
    requires |g| == RunCount(pat) && OccursAt(s, Render(pat, g), i) && Maximal(s, i, pat, g)
    ensures Match(s, i, pat) == Some(g)
    decreases |pat|, 1
  {
    if pat != [] {
      if pat[0].Lit? {
        MatchCompleteLit(s, i, pat, g);
      } else {
        MatchCompleteRun(s, i, pat, g);
      }
    }
  }

  /** `MatchComplete` for a pattern that starts with a literal. */
  lemma {:induction false} MatchCompleteLit(s: string, i: nat, pat: seq<Element>, g: seq<string>)
    requires pat != [] && pat[0].Lit? && Fits(pat, g)
    requires |g| == RunCount(pat) && OccursAt(s, Render(pat, g), i) && Maximal(s, i, pat, g)
    ensures Match(s, i, pat) == Some(g)
    decreases |pat|, 0
  {
    OccursLit(s, i, pat, g);
    MatchComplete(s, i + 1, pat[1..], g);
    MatchLitBuild(s, i, pat, g);
  }

  /** `MatchComplete` for a pattern that starts with a run. */
  lemma {:induction false} MatchCompleteRun(s: string, i: nat, pat: seq<Element>, g: seq<string>)
    requires pat != [] && pat[0].Run? && Fits(pat, g)
    requires |g| == RunCount(pat) && OccursAt(s, Render(pat, g), i) && Maximal(s, i, pat, g)
    ensures Match(s, i, pat) == Some(g)
    decreases |pat|, 0
  {
    OccursRun(s, i, pat, g);
    FirstRunGreedy(s, i, pat, g);
    MatchComplete(s, i + |g[0]|, pat[1..], g[1..]);
    MatchRunBuild(s, i, pat, g);
  }

  /** `Match` succeeds with `g` exactly when `g` fits the pattern, its text
      occurs at `i`, and no run could have gone on. */
  lemma MatchIff(s: string, i: nat, pat: seq<Element>, g: seq<string>)
    requires i <= |s|
    ensures Match(s, i, pat) == Some(g) <==>
              Fits(pat, g) && |g| == RunCount(pat) && OccursAt(s, Render(pat, g), i) && Maximal(s, i, pat, g)
  {
    if Match(s, i, pat) == Some(g) {
      MatchSound(s, i, pat);
    }
    if Fits(pat, g) && |g| == RunCount(pat) && OccursAt(s, Render(pat, g), i) && Maximal(s, i, pat, g) {
      MatchComplete(s, i, pat, g);
    }
  }

  /** `re.search`: the runs of the match at the leftmost offset, from `from`
      on, where the pattern matches. */
  function Search(s: string, pat: seq<Element>, from: nat): (r: Option<seq<string>>)
    ensures r.Some? ==>
              exists i :: from <= i <= |s| && Match(s, i, pat) == r
                          && forall j :: from <= j < i ==> Match(s, j, pat).None?
    ensures r.None? <==> forall i :: from <= i <= |s| ==> Match(s, i, pat).None?
    decreases |s| - from
  {
    if from > |s| then None
    else if Match(s, from, pat).Some? then
      assert !Match(s, from, pat).None?;
      Match(s, from, pat)
    else
      var r := Search(s, pat, from + 1);
      assert r.None? ==> forall i :: from <= i <= |s| ==> Match(s, i, pat).None? by {
        if r.None? {
          forall i | from <= i <= |s|
            ensures Match(s, i, pat).None?
          {
            if i > from {
              assert from + 1 <= i;
            }
          }
        }
      }
      assert r.Some? ==> exists i :: from <= i <= |s| && Match(s, i, pat).Some? by {
        if r.Some? {
          var i :| from + 1 <= i <= |s| && Match(s, i, pat) == r;
        }
      }
      r
  }

  /** `key` as literal pattern elements. */
  function Literal(key: string): (pat: seq<Element>)
    ensures |pat| == |key| && RunCount(pat) == 0
    ensures forall k :: 0 <= k < |key| ==> pat[k] == Lit(key[k])
  {
    if key == [] then [] else [Lit(key[0])] + Literal(key[1..])
  }

  lemma {:induction false} RenderLiteral(key: string, rest: seq<Element>, g: seq<string>)
    requires |g| == RunCount(rest)
    ensures RunCount(Literal(key) + rest) == RunCount(rest)
    ensures Render(Literal(key) + rest, g) == key + Render(rest, g)
    decreases |key|
  {
    if key != [] {
      var pat := Literal(key) + rest;
      assert Literal(key) == [Lit(key[0])] + Literal(key[1..]);
      assert pat[0] == Lit(key[0]) && pat[1..] == Literal(key[1..]) + rest;
      RenderLiteral(key[1..], rest, g);
      assert key == [key[0]] + key[1..];
    } else {
      assert Literal(key) + rest == rest;
    }
  }

  /** `key + r'([\d.]+)'`, the temperature field patterns `T:` and `B:`. */
  function FieldPattern(key: string): (pat: seq<Element>)
    ensures RunCount(pat) == 1
    ensures forall g :: |g| == 1 ==> Render(pat, g) == key + g[0]
  {
    var pat := Literal(key) + [Run(DigitsDots)];
    assert RunCount([Run(DigitsDots)]) == 1 by {
      assert [Run(DigitsDots)][1..] == [];
    }
    RenderLiteral(key, [Run(DigitsDots)], [""]);
    forall g | |g| == 1
      ensures Render(pat, g) == key + g[0]
    {
      RenderLiteral(key, [Run(DigitsDots)], g);
    }
    pat
  }

  /** `re.search(key + r'([\d.]+)', s).group(1)`. */
  function SearchField(s: string, key: string): (r: Option<string>)
    ensures r.Some? <==> Search(s, FieldPattern(key), 0).Some?
    ensures r.Some? ==> [r.value] == Search(s, FieldPattern(key), 0).value
  {
    match Search(s, FieldPattern(key), 0)
    case None => None
    case Some(g) => Some(g[0])
  }

  /** The nozzle and bed temperatures `test_connection` reports after a
      successful `M105`: only when both `T:` and `B:` fields are found. */
  function TemperatureReport(success: bool, response: string): (r: Option<(string, string)>)
    ensures r.Some? <==> success && SearchField(response, "T:").Some? && SearchField(response, "B:").Some?
    ensures r.Some? ==> r.value.0 == SearchField(response, "T:").value && r.value.1 == SearchField(response, "B:").value
  {
    if !success then None
    else
      var t := SearchField(response, "T:");
      var b := SearchField(response, "B:");
      if t.Some? && b.Some? then Some((t.value, b.value)) else None
  }

  /** `X:([\d.-]+)\s+Y:([\d.-]+)\s+Z:([\d.-]+)`. The whitespace runs are
      not captured by Python; here they are runs 1 and 3. Neither class
      holds whitespace or a letter, so a greedy run that stops too early
      cannot be followed by the next element and the match needs no
      backtracking. */
  const PositionPattern: seq<Element> :=
    [Lit('X'), Lit(':'), Run(DigitsDotsMinus), Run(Whitespace),
     Lit('Y'), Lit(':'), Run(DigitsDotsMinus), Run(Whitespace),
     Lit('Z'), Lit(':'), Run(DigitsDotsMinus)]

  /** A run of `cls` cannot run into element `e`: `e` cannot begin with a
      `cls` character. */
  predicate Excludes(cls: CharClass, e: Element)
  {
    match e
    case Lit(c) => !InClass(c, cls)
    case Run(other) => other != cls && (cls == Whitespace || other == Whitespace)
  }

  /** Every run but the last is followed by an element it cannot run into,
      so greedy runs never need to give characters back. */
  predicate SelfDelimiting(pat: seq<Element>)
  {
    forall k :: 0 <= k < |pat| - 1 && pat[k].Run? ==> Excludes(pat[k].cls, pat[k + 1])
  }

  lemma DelimitedTail(pat: seq<Element>)
    requires pat != [] && SelfDelimiting(pat)
    ensures SelfDelimiting(pat[1..])
    ensures |pat| > 1 && pat[0].Run? ==> Excludes(pat[0].cls, pat[1])
  {
    var rest := pat[1..];
    forall k | 0 <= k < |rest| - 1 && rest[k].Run?
      ensures Excludes(rest[k].cls, rest[k + 1])
    {
      assert rest[k] == pat[k + 1] && rest[k + 1] == pat[k + 2];
    }
  }

  /** The pattern's last element, when it is a run, is not followed by
      another character of its class. */
  predicate EndsMaximal(s: string, i: int, pat: seq<Element>, g: seq<string>)
    requires |g| == RunCount(pat)
  {
    pat == [] || pat[|pat| - 1].Lit? || RunEnds(s, i + |Render(pat, g)|, pat[|pat| - 1].cls)
  }

  /** `\s` shares no character with `[\d.]` or `[\d.-]`. */
  lemma SpaceIsNoDigit(c: char)
    ensures IsSpace(c) ==> !InClass(c, DigitsDots) && !InClass(c, DigitsDotsMinus)
  {
  }

  /** The rendered text begins with the first element's character. */
  lemma {:induction false} RenderHead(pat: seq<Element>, g: seq<string>)
    requires pat != [] && Fits(pat, g) && |g| == RunCount(pat)
    ensures Render(pat, g) != []
    ensures pat[0].Lit? ==> Render(pat, g)[0] == pat[0].c
    ensures pat[0].Run? ==> g != [] && g[0] != [] && Render(pat, g)[0] == g[0][0]
  {
  }

  /** A run followed by an element it cannot run into, whose text is
      written at `j`, ends at `j`. */
  lemma StoppedBy(s: string, j: nat, cls: CharClass, rest: seq<Element>, h: seq<string>)
    requires rest != [] && Excludes(cls, rest[0]) && Fits(rest, h) && |h| == RunCount(rest)
    requires OccursAt(s, Render(rest, h), j)
    ensures RunEnds(s, j, cls)
  {
    RenderHead(rest, h);
    var t := Render(rest, h);
    assert s[j] == s[j..j + |t|][0] == t[0];
    match rest[0]
    case Lit(_) =>
    case Run(other) =>
      assert AllIn(h[0], other);
      assert InClass(h[0][0], other);
      SpaceIsNoDigit(h[0][0]);
  }

  /** Past a leading literal, the rest of the text follows and still ends
      maximally. */
  lemma EndsAfterLit(s: string, i: nat, pat: seq<Element>, g: seq<string>)
    requires pat != [] && pat[0].Lit? && |g| == RunCount(pat)
    requires OccursAt(s, Render(pat, g), i) && EndsMaximal(s, i, pat, g)
    ensures OccursAt(s, Render(pat[1..], g), i + 1) && EndsMaximal(s, i + 1, pat[1..], g)
  {
    var rest := pat[1..];
    var t := Render(rest, g);
    assert Render(pat, g) == [pat[0].c] + t;
    OccursSplit(s, [pat[0].c], t, i);
    assert rest != [] ==> rest[|rest| - 1] == pat[|pat| - 1];
  }

  /** Past a leading run, the rest of the text follows and still ends
      maximally; a run that is the whole pattern ends maximally itself. */
  lemma EndsAfterRun(s: string, i: nat, pat: seq<Element>, g: seq<string>)
    requires pat != [] && pat[0].Run? && |g| == RunCount(pat)
    requires OccursAt(s, Render(pat, g), i) && EndsMaximal(s, i, pat, g)
    ensures g != [] && OccursAt(s, Render(pat[1..], g[1..]), i + |g[0]|)
    ensures EndsMaximal(s, i + |g[0]|, pat[1..], g[1..])
    ensures pat[1..] == [] ==> RunEnds(s, i + |g[0]|, pat[0].cls)
  {
    var rest := pat[1..];
    var t := Render(rest, g[1..]);
    assert Render(pat, g) == g[0] + t;
    OccursSplit(s, g[0], t, i);
    assert rest != [] ==> rest[|rest| - 1] == pat[|pat| - 1];
  }

  /** In a self-delimiting pattern, maximality of the last run is all that
      `Match` needs: every earlier run is stopped by what follows it. */
  lemma {:induction false} AutoMaximal(s: string, i: nat, pat: seq<Element>, g: seq<string>)
    requires SelfDelimiting(pat) && Fits(pat, g) && |g| == RunCount(pat)
    requires OccursAt(s, Render(pat, g), i) && EndsMaximal(s, i, pat, g)
    ensures Maximal(s, i, pat, g)
    decreases |pat|, 1
  {
    if pat != [] {
      DelimitedTail(pat);
      if pat[0].Lit? {
        AutoMaximalLit(s, i, pat, g);
      } else {
        AutoMaximalRun(s, i, pat, g);
      }
    }
  }

  /** `AutoMaximal` for a pattern that starts with a literal. */
  lemma {:induction false} AutoMaximalLit(s: string, i: nat, pat: seq<Element>, g: seq<string>)
    requires pat != [] && pat[0].Lit? && SelfDelimiting(pat[1..])
    requires Fits(pat, g) && |g| == RunCount(pat)
    requires OccursAt(s, Render(pat, g), i) && EndsMaximal(s, i, pat, g)
    ensures Maximal(s, i, pat, g)
    decreases |pat|, 0
  {
    EndsAfterLit(s, i, pat, g);
    AutoMaximal(s, i + 1, pat[1..], g);
  }

  /** `AutoMaximal` for a pattern that starts with a run. */
  lemma {:induction false} AutoMaximalRun(s: string, i: nat, pat: seq<Element>, g: seq<string>)
    requires pat != [] && pat[0].Run? && SelfDelimiting(pat[1..])
    requires |pat| > 1 ==> Excludes(pat[0].cls, pat[1])
    requires Fits(pat, g) && |g| == RunCount(pat)
    requires OccursAt(s, Render(pat, g), i) && EndsMaximal(s, i, pat, g)
    ensures Maximal(s, i, pat, g)
    decreases |pat|, 0
  {
    var rest := pat[1..];
    EndsAfterRun(s, i, pat, g);
    AutoMaximal(s, i + |g[0]|, rest, g[1..]);
    if rest != [] {
      StoppedBy(s, i + |g[0]|, pat[0].cls, rest, g[1..]);
    }
  }

  /** `Match` succeeds with `g` on a self-delimiting pattern exactly when `g`
      fits, its text occurs at `i`, and the last run is not followed by
      another character of its class: the greedy runs lose no match that
      backtracking would find. */
  lemma DelimitedMatchIff(s: string, i: nat, pat: seq<Element>, g: seq<string>)
    requires i <= |s| && SelfDelimiting(pat)
    ensures Match(s, i, pat) == Some(g) <==>
              Fits(pat, g) && |g| == RunCount(pat) && OccursAt(s, Render(pat, g), i) && EndsMaximal(s, i, pat, g)
  {
    if Match(s, i, pat) == Some(g) {
      MatchSound(s, i, pat);
      MaximalEnds(s, i, pat, g);
    }
    if Fits(pat, g) && |g| == RunCount(pat) && OccursAt(s, Render(pat, g), i) && EndsMaximal(s, i, pat, g) {
      AutoMaximal(s, i, pat, g);
      MatchComplete(s, i, pat, g);
    }
  }

  /** A self-delimiting pattern whose text occurs at `i` with fitting runs,
      whatever the length of the last run, is matched at `i`: every offset
      where a backtracking matcher succeeds is one where `Match` succeeds. */
  lemma {:induction false} DelimitedMatchFound(s: string, i: nat, pat: seq<Element>, g: seq<string>)
    requires i <= |s| && SelfDelimiting(pat)
    requires Fits(pat, g) && |g| == RunCount(pat) && OccursAt(s, Render(pat, g), i)
    ensures Match(s, i, pat).Some?
    decreases |pat|, 1
  {
    if pat != [] {
      DelimitedTail(pat);
      if pat[0].Lit? {
        DelimitedMatchFoundLit(s, i, pat, g);
      } else {
        DelimitedMatchFoundRun(s, i, pat, g);
      }
    }
  }

  /** `DelimitedMatchFound` for a pattern that starts with a literal. */
  lemma {:induction false} DelimitedMatchFoundLit(s: string, i: nat, pat: seq<Element>, g: seq<string>)
    requires i <= |s| && pat != [] && pat[0].Lit? && SelfDelimiting(pat[1..])
    requires Fits(pat, g) && |g| == RunCount(pat) && OccursAt(s, Render(pat, g), i)
    ensures Match(s, i, pat).Some?
    decreases |pat|, 0
  {
    OccursLit(s, i, pat, g);
    DelimitedMatchFound(s, i + 1, pat[1..], g);
    MatchLitBuild(s, i, pat, Match(s, i + 1, pat[1..]).value);
  }

  /** `DelimitedMatchFound` for a pattern that starts with a run: a run that
      is not last is stopped by what follows, so it is the greedy run; the
      last run may be shorter than the greedy one, which still matches. */
  lemma {:induction false} DelimitedMatchFoundRun(s: string, i: nat, pat: seq<Element>, g: seq<string>)
    requires i <= |s| && pat != [] && pat[0].Run? && SelfDelimiting(pat[1..])
    requires |pat| > 1 ==> Excludes(pat[0].cls, pat[1])
    requires Fits(pat, g) && |g| == RunCount(pat) && OccursAt(s, Render(pat, g), i)
    ensures Match(s, i, pat).Some?
    decreases |pat|, 0
  {
    var rest := pat[1..];
    var cls := pat[0].cls;
    assert g != [] && g[0] != [] && AllIn(g[0], cls) && Fits(rest, g[1..]);
    assert RunCount(pat) == 1 + RunCount(rest);
    OccursRun(s, i, pat, g);
    var w := g[0];
    if rest == [] {
      LastRunMatches(s, i, pat, w);
    } else {
      var j := i + |w|;
      StoppedBy(s, j, cls, rest, g[1..]);
      DelimitedMatchFound(s, j, rest, g[1..]);
      StoppedRunMatches(s, i, pat, w, Match(s, j, rest).value);
    }
  }

  /** A run of the leading class written at `i` and not followed by another
      character of its class is the greedy run, so a match of the rest after
      it makes a match. */
  lemma StoppedRunMatches(s: string, i: nat, pat: seq<Element>, w: string, h: seq<string>)
    requires |pat| > 1 && pat[0].Run? && w != []
    requires OccursAt(s, w, i) && AllIn(w, pat[0].cls) && RunEnds(s, i + |w|, pat[0].cls)
    requires Match(s, i + |w|, pat[1..]) == Some(h)
    ensures Match(s, i, pat).Some?
  {
    RunAt(s, i, w, pat[0].cls);
    assert ([w] + h)[1..] == h;
    MatchRunBuild(s, i, pat, [w] + h);
  }

  /** A run that is the whole pattern matches wherever a run of its class
      is written, however short. */
  lemma LastRunMatches(s: string, i: nat, pat: seq<Element>, w: string)
    requires i <= |s| && |pat| == 1 && pat[0].Run?
    requires w != [] && OccursAt(s, w, i) && AllIn(w, pat[0].cls)
    ensures Match(s, i, pat).Some?
  {
    RunAt(s, i, w, pat[0].cls);
    var n := RunLength(s, i, pat[0].cls);
    var v := s[i..i + n];
    assert pat[1..] == [] && [v][1..] == [];
    assert Match(s, i + n, pat[1..]) == Some([]);
    MatchRunBuild(s, i, pat, [v]);
  }

  lemma {:induction false} MaximalEnds(s: string, i: int, pat: seq<Element>, g: seq<string>)
    requires |g| == RunCount(pat) && Maximal(s, i, pat, g)
    ensures EndsMaximal(s, i, pat, g)
    decreases |pat|
  {
    if pat != [] {
      var rest := pat[1..];
      assert rest != [] ==> rest[|rest| - 1] == pat[|pat| - 1];
      match pat[0]
      case Lit(c) =>
        MaximalEnds(s, i + 1, rest, g);
      case Run(cls) =>
        MaximalEnds(s, i + |g[0]|, rest, g[1..]);
    }
  }

  /** Whitespace separates the coordinate runs and a label follows each
      whitespace run. */
  lemma PositionPatternDelimited()
    ensures SelfDelimiting(PositionPattern)
  {
    var pat := PositionPattern;
    forall k | 0 <= k < |pat| - 1 && pat[k].Run?
      ensures Excludes(pat[k].cls, pat[k + 1])
    {
      assert k == 2 || k == 3 || k == 6 || k == 7;
    }
  }

  lemma LiteralDelimited(key: string, rest: seq<Element>)
    requires SelfDelimiting(rest)
    ensures SelfDelimiting(Literal(key) + rest)
  {
    var pat := Literal(key) + rest;
    forall k | 0 <= k < |pat| - 1 && pat[k].Run?
      ensures Excludes(pat[k].cls, pat[k + 1])
    {
      assert pat[k] == rest[k - |key|] && pat[k + 1] == rest[k + 1 - |key|];
    }
  }

  /** A field pattern has one run, at its end. */
  lemma FieldPatternDelimited(key: string)
    ensures SelfDelimiting(FieldPattern(key))
  {
    LiteralDelimited(key, [Run(DigitsDots)]);
  }

  /** The position `test_connection` reports after a successful `M114`: the
      three coordinate groups of the leftmost match. */
  function PositionReport(success: bool, response: string): (r: Option<(string, string, string)>)
    ensures r.Some? <==> success && Search(response, PositionPattern, 0).Some?
    ensures r.Some? ==>
              var g := Search(response, PositionPattern, 0).value;
              |g| == 5 && r.value == (g[0], g[2], g[4])
  {
    if !success then None
    else
      match Search(response, PositionPattern, 0)
      case None => None
      case Some(g) =>
        assert RunCount(PositionPattern) == 5;
        Some((g[0], g[2], g[4]))
  }
}
