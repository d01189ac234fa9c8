/**
 * The serial test-result monitor of the target test loader: it assembles the
 * decoded serial text into lines, classifies each line (Unity result line,
 * Unity summary tally, bare `OK`/`FAIL`, free-text completion marker), keeps
 * the pass/fail statistics, decides completion, and renders the report.
 *
 * The serial port, the clock and the sleeps are not modelled: one monitor
 * run consumes a sequence of `Event`s, each what one loop iteration observed.
 */
module LoadTest {
  import opened Common
  import opened PyStr
  import opened UnityLine
  import opened TestSummary

  /** The statistics together with the completion flag. */
  datatype MonitorState = MonitorState(stats: Stats, testComplete: bool)

  const InitialStats := Stats(0, 0, 0, [], [])
  const Initial := MonitorState(InitialStats, false)

  /** One of the free-text completion markers occurs in the upper-cased line. */
  predicate HasCompletionMarker(line: string)
  {
    var upper := Upper(line);
    Contains(upper, "UNITY TEST RUN COMPLETE") || Contains(upper, "ALL TESTS PASSED")
    || Contains(upper, "SOME TESTS FAILED") || Contains(upper, "END OF TESTS")
  }

  /** The rule of `_process_line` that a (stripped) line falls under; the first that matches wins. */
  datatype LineKind = ResultLine | SummaryLine | TerminalMarker | CompletionMarker | Unclassified

  function Classify(line: string): LineKind
  {
    if Contains(line, ":PASS") || Contains(line, ":FAIL") then ResultLine
    else if Contains(line, "Tests") && (Contains(line, "Failures") || Contains(line, "Ignored")) then SummaryLine
    else if line == "OK" || line == "FAIL" then TerminalMarker
    else if HasCompletionMarker(line) then CompletionMarker
    else Unclassified
  }

  /**
   * A result line counts one more test run, and one more pass when it names
   * `:PASS` (otherwise one more failure); its parsed record, when there is
   * one, is appended to the matching list.
   */
  function TallyResult(s: Stats, l: string): Stats
  {
    var info := OptionToSeq(ParseUnityTestLine(l));
    if Contains(l, ":PASS")
    then Stats(s.testsRun + 1, s.testsPassed + 1, s.testsFailed, s.passedTests + info, s.failedTests)
    else Stats(s.testsRun + 1, s.testsPassed, s.testsFailed + 1, s.passedTests, s.failedTests + info)
  }

  /** `TallyResult` field by field, with the parsed record as a list of at most one. */
  lemma TallyResultFields(s: Stats, l: string)
    ensures var info := OptionToSeq(ParseUnityTestLine(l));
      var r := TallyResult(s, l);
      && r.testsRun == s.testsRun + 1
      && r.testsPassed == s.testsPassed + (if Contains(l, ":PASS") then 1 else 0)
      && r.testsFailed == s.testsFailed + (if Contains(l, ":PASS") then 0 else 1)
      && r.passedTests == s.passedTests + (if Contains(l, ":PASS") then info else [])
      && r.failedTests == s.failedTests + (if Contains(l, ":PASS") then [] else info)
  {
  }

  /** A summary tally overwrites the counts: run and failed from it, passed their difference. */
  function TallySummary(s: Stats, run: nat, failed: nat): Stats
  {
    Stats(run, run - failed, failed, s.passedTests, s.failedTests)
  }

  /** `_process_line` as a function of the state before the line. */
  function Process(m: MonitorState, line: string): MonitorState
  {
    var l := Strip(line);
    match Classify(l)
    case ResultLine => m.(stats := TallyResult(m.stats, l))
    case SummaryLine =>
      var numbers := Numbers(l);
      if |numbers| >= 2 then MonitorState(TallySummary(m.stats, numbers[0], numbers[1]), true) else m
    case TerminalMarker => m.(testComplete := true)
    case CompletionMarker => m.(testComplete := true)
    case Unclassified => m
  }

  /** One piece cut at a newline: stripped, and processed unless empty. */
  function ProcessPiece(m: MonitorState, piece: string): MonitorState
  {
    var l := Strip(piece);
    if l == "" then m else Process(m, l)
  }

  /** The pieces processed one after the other, in order. */
  function ProcessPieces(m: MonitorState, pieces: seq<string>): MonitorState
  {
    if pieces == [] then m
    else ProcessPiece(ProcessPieces(m, pieces[..|pieces| - 1]), pieces[|pieces| - 1])
  }

  /** Proof step: regrouping a concatenation of three lists. */
  lemma AppendAssoc<T>(a: seq<T>, b: seq<T>, c: seq<T>)
    ensures a + (b + c) == (a + b) + c
  {
  }

  /** Processing one more piece is processing it after all the earlier ones. */
  lemma ProcessPiecesSnoc(m: MonitorState, pieces: seq<string>, piece: string)
    ensures ProcessPieces(m, pieces + [piece]) == ProcessPiece(ProcessPieces(m, pieces), piece)
  {
    assert (pieces + [piece])[..|pieces|] == pieces;
  }

  /** Processing a list up to piece `j` inclusive is processing piece `j` after the ones before it. */
  lemma ProcessPiecesPrefix(m: MonitorState, pieces: seq<string>, j: nat)
    requires j < |pieces|
    ensures ProcessPieces(m, pieces[..j + 1]) == ProcessPiece(ProcessPieces(m, pieces[..j]), pieces[j])
  {
    assert pieces[..j + 1][..j] == pieces[..j];
  }

  /**
   * Appending a chunk to the line buffer: every newline-terminated piece is
   * processed and the unterminated tail becomes the new buffer.
   */
  function Feed(m: MonitorState, buffer: string, chunk: string): (MonitorState, string)
  {
    var pieces := Split(buffer + chunk, '\n');
    (ProcessPieces(m, Init(pieces)), Last(pieces))
  }

  /** The grace read after completion: split on its own, unterminated last piece included. */
  function Drain(m: MonitorState, grace: string): MonitorState
  {
    if grace == "" then m else ProcessPieces(m, Split(grace, '\n'))
  }

  /**
   * What one loop iteration observes: the deadline already reached, or the
   * decoded text of one read (empty when nothing arrived).
   */
  datatype Event = Expired | Read(text: string)

  /**
   * `monitor` from a given state and line buffer.  Running out of events
   * stands for the deadline being reached.
   */
  function Run(m: MonitorState, buffer: string, events: seq<Event>, grace: string): MonitorState
    decreases |events|
  {
    if m.testComplete || events == [] || events[0].Expired? then m
    else if events[0].text == "" then Run(m, buffer, events[1..], grace)
    else
      var (m', buffer') := Feed(m, buffer, events[0].text);
      if m'.testComplete then Drain(m', grace) else Run(m', buffer', events[1..], grace)
  }

  /** Once complete, a run stays complete whatever line comes next. */
  lemma ProcessKeepsCompletion(m: MonitorState, line: string)
    requires m.testComplete
    ensures Process(m, line).testComplete
  {
  }

  lemma {:induction false} ProcessPiecesKeepsCompletion(m: MonitorState, pieces: seq<string>)
    requires m.testComplete
    ensures ProcessPieces(m, pieces).testComplete
  {
    if pieces != [] {
      ProcessPiecesKeepsCompletion(m, pieces[..|pieces| - 1]);
      var p := ProcessPieces(m, pieces[..|pieces| - 1]);
      if Strip(pieces[|pieces| - 1]) != "" {
        ProcessKeepsCompletion(p, Strip(pieces[|pieces| - 1]));
      }
    }
  }

  /** With the deadline reached (no event left, or an expiry), the monitor stops where it is. */
  lemma RunStops(m: MonitorState, buffer: string, events: seq<Event>, i: nat, grace: string)
    requires i <= |events| && (i == |events| || events[i].Expired?)
    ensures Run(m, buffer, events[i..], grace) == m
  {
  }

  /**
   * One read before completion: an empty read changes nothing; otherwise the
   * data is fed, and either the run completes (and the grace read is drained)
   * or monitoring goes on with the next event.
   */
  lemma RunReads(m: MonitorState, buffer: string, events: seq<Event>, i: nat, grace: string)
    requires i < |events| && events[i].Read? && !m.testComplete
    ensures var next := Feed(m, buffer, events[i].text);
      Run(m, buffer, events[i..], grace)
      == if events[i].text == "" then Run(m, buffer, events[i + 1..], grace)
         else if next.0.testComplete then Drain(next.0, grace)
         else Run(next.0, next.1, events[i + 1..], grace)
  {
    assert events[i..][1..] == events[i + 1..];
  }

  // ---------------------------------------------------------------------------
  // Properties of line classification
  // ---------------------------------------------------------------------------

  /**
   * A line holding `:PASS` (whether or not it also holds `:FAIL`) counts one
   * more run and one more pass, keeps the failure count and the flag, and
   * appends its record to the passed list exactly when it parses.
   */
  lemma PassLineCounted(m: MonitorState, line: string)
    requires Contains(Strip(line), ":PASS")
    ensures var r := Process(m, line);
      && r.stats.testsRun == m.stats.testsRun + 1
      && r.stats.testsPassed == m.stats.testsPassed + 1
      && r.stats.testsFailed == m.stats.testsFailed
      && r.stats.passedTests == m.stats.passedTests + OptionToSeq(ParseUnityTestLine(Strip(line)))
      && r.stats.failedTests == m.stats.failedTests
      && r.testComplete == m.testComplete
  {
    ProcessResultLine(m, line);
  }

  /** The same for a line holding `:FAIL` but not `:PASS`, on the failure side. */
  lemma FailLineCounted(m: MonitorState, line: string)
    requires Contains(Strip(line), ":FAIL") && !Contains(Strip(line), ":PASS")
    ensures var r := Process(m, line);
      && r.stats.testsRun == m.stats.testsRun + 1
      && r.stats.testsPassed == m.stats.testsPassed
      && r.stats.testsFailed == m.stats.testsFailed + 1
      && r.stats.passedTests == m.stats.passedTests
      && r.stats.failedTests == m.stats.failedTests + OptionToSeq(ParseUnityTestLine(Strip(line)))
      && r.testComplete == m.testComplete
  {
    ProcessResultLine(m, line);
  }

  /**
   * A Unity pass line `path:line:name:PASS` with colon-free fields records
   * exactly the test it names, with the base name of its file.
   */
  lemma UnityPassLineRecorded(m: MonitorState, path: string, lineNo: string, name: string)
    requires ':' !in path && ':' !in lineNo && ':' !in name
    requires path != [] && !IsSpace(path[0])
    ensures var line := path + ":" + lineNo + ":" + name + ":PASS";
      Process(m, line).stats.passedTests
      == m.stats.passedTests + [Record(name, BaseName(path), lineNo, "PASS", "")]
  {
    var line := path + ":" + lineNo + ":" + name + ":PASS";
    assert line == path + ":" + lineNo + ":" + name + ":" + "PASS";
    assert line[0] == path[0];
    StripUnchanged(line);
    assert line[|line| - 5..] == ":PASS";
    ContainsWitness(line, ":PASS", |line| - 5);
    ParseWellFormed(path, lineNo, name, "PASS");
    PassLineCounted(m, line);
  }

  /**
   * A bare `OK` or `FAIL` line falls through the result and summary rules and
   * completes the run, leaving the statistics as they were.
   */
  lemma TerminalLineCompletes(m: MonitorState, line: string)
    requires Strip(line) == "OK" || Strip(line) == "FAIL"
    ensures Process(m, line) == m.(testComplete := true)
  {
  }

  /** Proof step: a text found in `s` is no longer than `s`. */
  lemma ContainsLength(s: string, sub: string)
    requires Contains(s, sub)
    ensures |sub| <= |s|
  {
  }

  /**
   * A colon-free line that does not name `Tests` but holds one of the
   * completion markers completes the run and changes no statistic.
   */
  lemma MarkerLineCompletes(m: MonitorState, line: string)
    requires var l := Strip(line); ':' !in l && !Contains(l, "Tests") && HasCompletionMarker(l)
    ensures Process(m, line) == m.(testComplete := true)
  {
    var l := Strip(line);
    NotContains(l, ":PASS");
    NotContains(l, ":FAIL");
    var upper := Upper(l);
    assert |l| > 4 by {
      if Contains(upper, "UNITY TEST RUN COMPLETE") {
        ContainsLength(upper, "UNITY TEST RUN COMPLETE");
      } else if Contains(upper, "ALL TESTS PASSED") {
        ContainsLength(upper, "ALL TESTS PASSED");
      } else if Contains(upper, "SOME TESTS FAILED") {
        ContainsLength(upper, "SOME TESTS FAILED");
      } else {
        ContainsLength(upper, "END OF TESTS");
      }
    }
    ProcessMarkerLine(m, line);
  }

  /** The tally line Unity prints at the end of a run. */
  function UnityTally(run: nat, failed: nat, ignored: nat): string
  {
    NatToString(run) + (" Tests " + (NatToString(failed) + (" Failures " + (NatToString(ignored) + " Ignored"))))
  }

  /**
   * The Unity tally `<run> Tests <failed> Failures <ignored> Ignored`
   * completes the run with `run` tests of which `failed` failed.
   */
  lemma UnityTallyLine(m: MonitorState, run: nat, failed: nat, ignored: nat)
    ensures Process(m, UnityTally(run, failed, ignored)) == MonitorState(TallySummary(m.stats, run, failed), true)
  {
    var line := UnityTally(run, failed, ignored);
    UnityTallyClassified(run, failed, ignored);
    UnityTallyNumbers(run, failed, ignored);
    ProcessSummaryLine(m, line);
  }

  /** The tally line is already stripped and falls under the summary rule. */
  lemma UnityTallyClassified(run: nat, failed: nat, ignored: nat)
    ensures Strip(UnityTally(run, failed, ignored)) == UnityTally(run, failed, ignored)
    ensures Classify(UnityTally(run, failed, ignored)) == SummaryLine
  {
    var line := UnityTally(run, failed, ignored);
    UnityTallyStripped(run, failed, ignored);
    UnityTallyNoColon(run, failed, ignored);
    NotContains(line, ":PASS");
    NotContains(line, ":FAIL");
    UnityTallyWords(run, failed, ignored);
  }

  /** The tally line names both `Tests` and `Failures`. */
  lemma UnityTallyWords(run: nat, failed: nat, ignored: nat)
    ensures Contains(UnityTally(run, failed, ignored), "Tests")
    ensures Contains(UnityTally(run, failed, ignored), "Failures")
  {
    var t3 := NatToString(ignored) + " Ignored";
    var t2 := NatToString(failed) + (" Failures " + t3);
    assert OccursAt(" Tests ", "Tests", 1);
    ContainsConcat(" Tests ", t2, "Tests");
    ContainsConcat(NatToString(run), " Tests " + t2, "Tests");
    assert OccursAt(" Failures ", "Failures", 1);
    ContainsConcat(" Failures ", t3, "Failures");
    ContainsConcat(NatToString(failed), " Failures " + t3, "Failures");
    ContainsConcat(" Tests ", t2, "Failures");
    ContainsConcat(NatToString(run), " Tests " + t2, "Failures");
  }

  lemma UnityTallyStripped(run: nat, failed: nat, ignored: nat)
    ensures Strip(UnityTally(run, failed, ignored)) == UnityTally(run, failed, ignored)
  {
    var a := NatToString(run);
    var line := UnityTally(run, failed, ignored);
    assert line == a + (" Tests " + NatToString(failed) + " Failures " + NatToString(ignored) + " Ignored");
    assert line[0] == a[0] && IsDigit(a[0]);
    assert line[|line| - 1] == 'd';
    StripUnchanged(line);
  }

  lemma UnityTallyNoColon(run: nat, failed: nat, ignored: nat)
    ensures ':' !in UnityTally(run, failed, ignored)
    ensures '\n' !in UnityTally(run, failed, ignored)
  {
    var a, b, c := NatToString(run), NatToString(failed), NatToString(ignored);
    assert ':' !in a && ':' !in b && ':' !in c;
    assert ':' !in " Tests " && ':' !in " Failures " && ':' !in " Ignored";
    assert '\n' !in a && '\n' !in b && '\n' !in c;
    assert '\n' !in " Tests " && '\n' !in " Failures " && '\n' !in " Ignored";
  }

  lemma TallyWordsDigitFree()
    ensures NoDigits(" Tests ") && NoDigits(" Failures ") && NoDigits(" Ignored")
  {
  }

  /** The numbers of the tally line are the three counts, in order. */
  lemma UnityTallyNumbers(run: nat, failed: nat, ignored: nat)
    ensures Numbers(UnityTally(run, failed, ignored)) == [run, failed, ignored]
  {
    var t2 := " Failures " + (NatToString(ignored) + " Ignored");
    var t1 := " Tests " + (NatToString(failed) + t2);
    assert " Ignored" + [] == " Ignored";
    TallyWordsDigitFree();
    NumberThenWord(ignored, " Ignored", []);
    NumberThenWord(failed, " Failures ", NatToString(ignored) + " Ignored");
    NumberThenWord(run, " Tests ", NatToString(failed) + t2);
  }

  // ---------------------------------------------------------------------------
  // Properties of line assembly and of the monitor loop
  // ---------------------------------------------------------------------------

  lemma {:induction false} ProcessPiecesAppend(m: MonitorState, a: seq<string>, b: seq<string>)
    ensures ProcessPieces(m, a + b) == ProcessPieces(ProcessPieces(m, a), b)
    decreases |b|
  {
    if b == [] {
      assert a + b == a;
    } else {
      var b' := b[..|b| - 1];
      assert (a + b)[..|a + b| - 1] == a + b';
      ProcessPiecesAppend(m, a, b');
    }
  }

  /**
   * Where the serial text was cut into chunks does not matter: feeding `x`
   * and then `y` processes the same lines, and leaves the same buffer, as
   * feeding `x + y` at once.
   */
  lemma FeedConcat(m: MonitorState, buffer: string, x: string, y: string)
    ensures var first := Feed(m, buffer, x);
      Feed(first.0, first.1, y) == Feed(m, buffer, x + y)
  {
    var s := buffer + x;
    var ps := Split(s, '\n');
    var tail := Split(Last(ps) + y, '\n');
    assert buffer + (x + y) == s + y;
    SplitConcat(s, y, '\n');
    assert Split(s + y, '\n') == Init(ps) + tail;
    assert Init(Init(ps) + tail) == Init(ps) + Init(tail);
    assert Last(Init(ps) + tail) == Last(tail);
    ProcessPiecesAppend(m, Init(ps), Init(tail));
  }

  /** Every event is an expiry or a read that brought nothing. */
  predicate NoData(events: seq<Event>)
  {
    forall k :: 0 <= k < |events| ==> events[k].Expired? || events[k].text == ""
  }

  /** When nothing ever arrives, monitoring ends where it began. */
  lemma {:induction false} RunWithoutData(m: MonitorState, buffer: string, events: seq<Event>, grace: string)
    requires NoData(events)
    ensures Run(m, buffer, events, grace) == m
    decreases |events|
  {
    if !m.testComplete && events != [] && events[0].Read? {
      assert NoData(events[1..]) by {
        forall k | 0 <= k < |events[1..]| ensures events[1..][k].Expired? || events[1..][k].text == "" {
          assert events[1..][k] == events[k + 1];
        }
      }
      RunWithoutData(m, buffer, events[1..], grace);
    }
  }

  /**
   * The read that completes the run ends monitoring: the grace read is
   * drained on its own, the unterminated rest of the buffer is dropped, and
   * later events are never looked at.
   */
  lemma RunEndsAtCompletion(m: MonitorState, buffer: string, data: string, rest: seq<Event>, grace: string)
    requires !m.testComplete && data != ""
    requires Feed(m, buffer, data).0.testComplete
    ensures Run(m, buffer, [Read(data)] + rest, grace) == Drain(Feed(m, buffer, data).0, grace)
  {
    var events := [Read(data)] + rest;
    assert events[0] == Read(data);
    assert !m.testComplete && events != [] && !events[0].Expired? && events[0].text != "";
  }

  /**
   * A chunk that completes the run on its first line and ends in an
   * unterminated piece: that piece is never processed, whatever it holds.
   */
  lemma ResidueNeverProcessed(t: string, rest: seq<Event>)
    requires '\n' !in t
    ensures Run(Initial, "", [Read("OK\n" + t)] + rest, "") == Initial.(testComplete := true)
  {
    var data := "OK\n" + t;
    assert "" + data == "OK" + ['\n'] + t;
    SplitAtFirst("OK", '\n', t);
    assert Split(t, '\n') == [t];
    assert Init(Split("" + data, '\n')) == ["OK"];
    StripUnchanged("OK");
    NotContains("OK", ":PASS");
    NotContains("OK", ":FAIL");
    NotContains("OK", "Tests");
    assert Classify("OK") == TerminalMarker;
    ProcessTerminalLine(Initial, "OK");
    assert ProcessPieces(Initial, ["OK"]) == ProcessPiece(ProcessPieces(Initial, []), "OK");
    RunEndsAtCompletion(Initial, "", data, rest, "");
  }

  /** The overall verdict of `load_and_monitor`. */
  function Verdict(success: bool, s: Stats): bool
  {
    success && s.testsFailed == 0 && s.testsRun > 0
  }

  /** The state after `monitor`: untouched when the port is not open. */
  function Monitored(portOpen: bool, events: seq<Event>, grace: string): MonitorState
  {
    if portOpen then Run(Initial, "", events, grace) else Initial
  }

  /** What `load_and_monitor` reports: the rendered summary and the verdict. */
  datatype Outcome = Outcome(report: string, passed: bool)

  /**
   * `load_and_monitor` after loading: a fresh monitor, `monitor`, the
   * summary, and the verdict.  A missing binary is the `FileNotFoundError`
   * raised before anything else, which `main` does not catch.
   */
  method LoadAndMonitor(binaryExists: bool, portOpen: bool, events: seq<Event>, grace: string)
    returns (r: Option<Outcome>)
    ensures !binaryExists <==> r.None?
    ensures r.Some? ==> var m := Monitored(portOpen, events, grace);
      && r.value.report == Summary(m.stats)
      && r.value.passed == Verdict(portOpen && m.testComplete, m.stats)
  {
    if !binaryExists {
      return None;
    }
    var monitor := new SerialMonitor();
    var success := monitor.Monitor(portOpen, events, grace);
    var report := monitor.GetTestSummary();
    var allPassed := success && monitor.unityStats.testsFailed == 0 && monitor.unityStats.testsRun > 0;
    r := Some(Outcome(report, allPassed));
  }

  /** A run that saw no output is never a pass, whatever else happened. */
  lemma SilentRunFails(portOpen: bool, events: seq<Event>, grace: string)
    requires NoData(events)
    ensures var m := Monitored(portOpen, events, grace);
      && m == Initial && Summary(m.stats) == NoResults
      && !Verdict(portOpen && m.testComplete, m.stats)
  {
    if portOpen {
      RunWithoutData(Initial, "", events, grace);
    }
  }

  /**
   * One read holding a Unity tally line ends the run with its counts; the
   * verdict is a pass exactly when at least one test ran and none failed.
   */
  lemma TallyDecidesVerdict(run: nat, failed: nat, ignored: nat, rest: seq<Event>)
    requires failed <= run
    ensures var m := Monitored(true, [Read(UnityTally(run, failed, ignored) + "\n")] + rest, "");
      && m.testComplete
      && m.stats.testsRun == run && m.stats.testsFailed == failed && m.stats.testsPassed == run - failed
      && (Verdict(m.testComplete, m.stats) <==> run > 0 && failed == 0)
  {
    var data := UnityTally(run, failed, ignored) + "\n";
    FeedUnityTally(run, failed, ignored);
    RunEndsAtCompletion(Initial, "", data, rest, "");
  }

  /** Feeding a fresh monitor one Unity tally line completes it with the tally's counts. */
  lemma FeedUnityTally(run: nat, failed: nat, ignored: nat)
    ensures Feed(Initial, "", UnityTally(run, failed, ignored) + "\n").0
            == MonitorState(TallySummary(Initial.stats, run, failed), true)
  {
    var line := UnityTally(run, failed, ignored);
    var data := line + "\n";
    UnityTallyNoColon(run, failed, ignored);
    assert "" + data == line + ['\n'] + "";
    SplitAtFirst(line, '\n', "");
    assert Split("", '\n') == [""];
    assert Init(Split("" + data, '\n')) == [line];
    UnityTallyClassified(run, failed, ignored);
    UnityTallyLine(Initial, run, failed, ignored);
    assert ProcessPieces(Initial, [line]) == ProcessPiece(ProcessPieces(Initial, []), line);
  }

  // ---------------------------------------------------------------------------
  // What one line does to the state
  // ---------------------------------------------------------------------------

  /** A result line only updates the statistics, as `TallyResult` says. */
  lemma ProcessResultLine(m: MonitorState, line: string)
    requires Classify(Strip(line)) == ResultLine
    ensures Process(m, line) == MonitorState(TallyResult(m.stats, Strip(line)), m.testComplete)
  {
  }

  /**
   * A summary tally with at least two numbers completes the run with the
   * counts it reports; with fewer numbers it changes nothing.
   */
  lemma ProcessSummaryLine(m: MonitorState, line: string)
    requires Classify(Strip(line)) == SummaryLine
    ensures var ns := Numbers(Strip(line));
      Process(m, line) == if |ns| >= 2 then MonitorState(TallySummary(m.stats, ns[0], ns[1]), true) else m
  {
  }

  /** A bare `OK` or `FAIL` line only completes the run. */
  lemma ProcessTerminalLine(m: MonitorState, line: string)
    requires Classify(Strip(line)) == TerminalMarker
    ensures Process(m, line) == m.(testComplete := true)
  {
  }

  /** A line holding a completion marker only completes the run. */
  lemma ProcessMarkerLine(m: MonitorState, line: string)
    requires Classify(Strip(line)) == CompletionMarker
    ensures Process(m, line) == m.(testComplete := true)
  {
  }

  /** Any other line changes nothing. */
  lemma ProcessOtherLine(m: MonitorState, line: string)
    requires Classify(Strip(line)) == Unclassified
    ensures Process(m, line) == m
  {
  }

  class SerialMonitor {
    var testComplete: bool
    var unityStats: Stats

    function State(): MonitorState
      reads this
    {
      MonitorState(unityStats, testComplete)
    }

    constructor ()
      ensures State() == Initial
    {
      testComplete := false;
      unityStats := InitialStats;
    }

    /** `_process_line` */
    method ProcessLine(line: string)
      modifies this
      ensures State() == Process(old(State()), line)
    {
      ghost var m := State();
      var lineClean := Strip(line);
      match Classify(lineClean)
      case ResultLine => ProcessResult(line, lineClean);
      case SummaryLine => ProcessSummary(line, lineClean);
      case TerminalMarker => ProcessMarker(line, lineClean);
      case CompletionMarker => ProcessMarker(line, lineClean);
      case Unclassified => ProcessOtherLine(m, line);
    }

    /** `_process_line` on a test result line. */
    method ProcessResult(line: string, lineClean: string)
      requires lineClean == Strip(line) && Classify(lineClean) == ResultLine
      modifies this
      ensures State() == Process(old(State()), line)
    {
      ProcessResultLine(State(), line);
      TallyResultLine(lineClean);
    }

    /** `_process_line` on a summary tally line. */
    method ProcessSummary(line: string, lineClean: string)
      requires lineClean == Strip(line) && Classify(lineClean) == SummaryLine
      modifies this
      ensures State() == Process(old(State()), line)
    {
      ProcessSummaryLine(State(), line);
      var numbers := Numbers(lineClean);
      if |numbers| >= 2 {
        ApplyTally(numbers[0], numbers[1]);
      }
    }

    /** `_process_line` on a line that only completes the run. */
    method ProcessMarker(line: string, lineClean: string)
      requires lineClean == Strip(line)
      requires Classify(lineClean) == TerminalMarker || Classify(lineClean) == CompletionMarker
      modifies this
      ensures State() == Process(old(State()), line)
    {
      if Classify(lineClean) == TerminalMarker {
        ProcessTerminalLine(State(), line);
      } else {
        ProcessMarkerLine(State(), line);
      }
      testComplete := true;
    }

    /** The result-line branch of `_process_line`, as one tally. */
    method TallyResultLine(lineClean: string)
      requires Contains(lineClean, ":PASS") || Contains(lineClean, ":FAIL")
      modifies this
      ensures unityStats == TallyResult(old(unityStats), lineClean)
      ensures testComplete == old(testComplete)
    {
      TallyResultFields(unityStats, lineClean);
      ghost var expected := TallyResult(unityStats, lineClean);
      CountTestResult(lineClean);
      assert unityStats == expected;
    }

    /**
     * The result-line branch of `_process_line`: one more run, one more pass
     * or failure, and the parsed record, if any, appended to its list.
     */
    method CountTestResult(lineClean: string)
      requires Contains(lineClean, ":PASS") || Contains(lineClean, ":FAIL")
      modifies this
      ensures var pass, info := Contains(lineClean, ":PASS"), OptionToSeq(ParseUnityTestLine(lineClean));
        && unityStats.testsRun == old(unityStats.testsRun) + 1
        && unityStats.testsPassed == old(unityStats.testsPassed) + (if pass then 1 else 0)
        && unityStats.testsFailed == old(unityStats.testsFailed) + (if pass then 0 else 1)
        && unityStats.passedTests == old(unityStats.passedTests) + (if pass then info else [])
        && unityStats.failedTests == old(unityStats.failedTests) + (if pass then [] else info)
      ensures testComplete == old(testComplete)
    {
      var testInfo := ParseUnityTestLine(lineClean);
      if Contains(lineClean, ":PASS") {
        unityStats := unityStats.(testsPassed := unityStats.testsPassed + 1);
        if testInfo.Some? {
          unityStats := unityStats.(passedTests := unityStats.passedTests + [testInfo.value]);
        }
      } else if Contains(lineClean, ":FAIL") {
        unityStats := unityStats.(testsFailed := unityStats.testsFailed + 1);
        if testInfo.Some? {
          unityStats := unityStats.(failedTests := unityStats.failedTests + [testInfo.value]);
        }
      }
      unityStats := unityStats.(testsRun := unityStats.testsRun + 1);
    }

    /** The summary-tally branch of `_process_line`: overwrite the counts and complete. */
    method ApplyTally(run: nat, failed: nat)
      modifies this
      ensures State() == MonitorState(TallySummary(old(unityStats), run, failed), true)
    {
      unityStats := unityStats.(testsRun := run);
      unityStats := unityStats.(testsFailed := failed);
      unityStats := unityStats.(testsPassed := unityStats.testsRun - unityStats.testsFailed);
      testComplete := true;
    }

    /**
     * `monitor`: returns the completion flag, or false at once when the port
     * is not open.
     */
    method Monitor(portOpen: bool, events: seq<Event>, grace: string) returns (success: bool)
      modifies this
      ensures !portOpen ==> !success && State() == old(State())
      ensures portOpen ==> State() == Run(old(State()), "", events, grace) && success == testComplete
    {
      if !portOpen {
        return false;
      }
      var lineBuffer := "";
      var i := 0;
      while !testComplete
        invariant 0 <= i <= |events|
        invariant Run(old(State()), "", events, grace) == Run(State(), lineBuffer, events[i..], grace)
        decreases |events| - i
      {
        if i == |events| || events[i].Expired? {
          RunStops(State(), lineBuffer, events, i, grace);
          break;
        }
        var data := events[i].text;
        RunReads(State(), lineBuffer, events, i, grace);
        if data != "" {
          lineBuffer := HandleData(lineBuffer, data, grace);
          if testComplete {
            break;
          }
        }
        i := i + 1;
      }
      success := testComplete;
    }

    /**
     * What `monitor` does with a non-empty read: buffer it, process the
     * complete lines, and once the run is complete drain the grace read.
     */
    method HandleData(buffer: string, data: string, grace: string) returns (lineBuffer: string)
      modifies this
      ensures var next := Feed(old(State()), buffer, data);
        && lineBuffer == next.1
        && State() == (if next.0.testComplete then Drain(next.0, grace) else next.0)
        && testComplete == next.0.testComplete
    {
      lineBuffer := buffer + data;
      lineBuffer := ProcessCompleteLines(lineBuffer);
      if testComplete {
        ghost var completed := State();
        var remainingData := grace;
        if remainingData != "" {
          ProcessRemainingLines(remainingData);
        }
        ProcessPiecesKeepsCompletion(completed, Split(grace, '\n'));
      }
    }

    /**
     * The inner loop of `monitor`: every newline-terminated line of the
     * buffer is stripped and, unless empty, processed; the unterminated tail
     * is what remains buffered.
     */
    method ProcessCompleteLines(buffer: string) returns (lineBuffer: string)
      modifies this
      ensures State() == ProcessPieces(old(State()), Init(Split(buffer, '\n')))
      ensures lineBuffer == Last(Split(buffer, '\n'))
    {
      ghost var before := State();
      ghost var pieces := Split(buffer, '\n');
      ghost var done: seq<string> := [];
      lineBuffer := buffer;
      while '\n' in lineBuffer
        invariant pieces == done + Split(lineBuffer, '\n')
        invariant State() == ProcessPieces(before, done)
        decreases |lineBuffer|
      {
        var idx := IndexOf(lineBuffer, '\n');
        var line := lineBuffer[..idx];
        ghost var piece := line;
        ghost var rest := lineBuffer[idx + 1..];
        assert Split(lineBuffer, '\n') == [piece] + Split(rest, '\n');
        AppendAssoc(done, [piece], Split(rest, '\n'));
        lineBuffer := lineBuffer[idx + 1..];
        ProcessPieceStep(line);
        ProcessPiecesSnoc(before, done, piece);
        done := done + [piece];
      }
      assert Split(lineBuffer, '\n') == [lineBuffer];
      assert Init(pieces) == done;
    }

    /** One piece of text cut at a newline: stripped, and processed unless empty. */
    method ProcessPieceStep(piece: string)
      modifies this
      ensures State() == ProcessPiece(old(State()), piece)
    {
      var line := Strip(piece);
      if line != "" {
        ProcessLine(line);
      }
    }

    /** The grace read after completion: each of its lines, the unterminated last one included. */
    method ProcessRemainingLines(remainingData: string)
      modifies this
      ensures State() == ProcessPieces(old(State()), Split(remainingData, '\n'))
    {
      ghost var before := State();
      var remaining := Split(remainingData, '\n');
      for j := 0 to |remaining|
        invariant State() == ProcessPieces(before, remaining[..j])
      {
        ProcessPieceStep(remaining[j]);
        ProcessPiecesPrefix(before, remaining, j);
      }
      assert remaining[..|remaining|] == remaining;
    }

    /** `get_test_summary` */
    method GetTestSummary() returns (summary: string)
      ensures summary == Summary(unityStats)
    {
      var stats := unityStats;
      if stats.testsRun == 0 {
        return NoResults;
      }
      summary := "\n" + Repeat('=', 70) + "\n";
      summary := summary + (MAGENTA + "UNITY TEST RESULTS SUMMARY" + NC + "\n");
      summary := summary + (Repeat('=', 70) + "\n");
      summary := summary + (BLUE + "Tests Run: " + IntToString(stats.testsRun) + NC + "\n");
      summary := summary + (GREEN + "Passed: " + IntToString(stats.testsPassed) + NC + "\n");
      summary := summary + (RED + "Failed: " + IntToString(stats.testsFailed) + NC + "\n");
      if stats.testsFailed == 0 {
        summary := summary + (GREEN + "\U{1F389} ALL TESTS PASSED!" + NC + "\n");
      } else {
        summary := summary + (RED + "\U{274C} " + IntToString(stats.testsFailed) + " TEST(S) FAILED" + NC + "\n");
      }
      summary := summary + (Repeat('-', 70) + "\n");
      summary := summary + (CYAN + "DETAILED RESULTS:" + NC + "\n");
      assert summary == CountsBlock(stats) + Banner(stats.testsFailed) + (Rule('-') + "\n")
                        + (CYAN + "DETAILED RESULTS:" + NC + "\n");
      var passedLines := RenderPassed(stats.passedTests);
      var failedLines := RenderFailed(stats.failedTests);
      var details := RenderFailureDetails(stats.failedTests);
      summary := summary + (passedLines + failedLines + details);
      SummaryAssembled(stats);
      summary := summary + Repeat('=', 70);
    }
  }

  /** The passed-tests loop of `get_test_summary`: one line per passed record, in order. */
  method RenderPassed(passed: seq<Record>) returns (text: string)
    ensures text == Entries(passed, PassEntry)
  {
    text := "";
    for i := 0 to |passed|
      invariant text == Entries(passed[..i], PassEntry)
    {
      var testInfo := passed[i];
      EntriesSnoc(passed, i, PassEntry);
      text := text + (GREEN + "\U{2713} PASS: " + testInfo.testName + NC + "\n");
    }
    assert passed[..|passed|] == passed;
  }

  /** The failed-tests loop of `get_test_summary`: one line per failed record, message inline. */
  method RenderFailed(failed: seq<Record>) returns (text: string)
    ensures text == Entries(failed, FailEntry)
  {
    text := "";
    for i := 0 to |failed|
      invariant text == Entries(failed[..i], FailEntry)
    {
      var testInfo := failed[i];
      var entry := RED + "\U{2717} FAIL: " + testInfo.testName + NC;
      if testInfo.message != "" {
        entry := entry + (" - " + testInfo.message);
      }
      entry := entry + (" (" + testInfo.file + ":" + testInfo.line + ")\n");
      EntriesSnoc(failed, i, FailEntry);
      text := text + entry;
    }
    assert failed[..|failed|] == failed;
  }

  /** The failure-details section of `get_test_summary`, present only when some test failed. */
  method RenderFailureDetails(failed: seq<Record>) returns (text: string)
    ensures text == FailureDetails(failed)
  {
    if |failed| == 0 {
      return "";
    }
    text := "\n" + Repeat('-', 70) + "\n";
    text := text + (RED + "FAILURE DETAILS:" + NC + "\n");
    var numbered := RenderNumberedDetails(failed);
    text := text + numbered;
  }

  /** The numbered entries of the failure-details section, separated by blank lines. */
  method RenderNumberedDetails(failed: seq<Record>) returns (numbered: string)
    ensures numbered == SeparatedUpTo(NumberedDetails(failed), |failed|)
  {
    ghost var es := NumberedDetails(failed);
    numbered := "";
    for i := 1 to |failed| + 1
      invariant numbered == SeparatedUpTo(es, i - 1)
    {
      var entry := RenderDetailEntry(i, failed[i - 1]);
      numbered := numbered + entry;
      if i < |failed| {
        numbered := numbered + "\n";
      }
    }
  }

  /** One numbered entry of the failure-details section. */
  method RenderDetailEntry(i: int, testInfo: Record) returns (entry: string)
    ensures entry == DetailEntry(i, testInfo)
  {
    entry := RED + "\U{274C} " + IntToString(i) + ". " + testInfo.testName + ":" + NC + "\n";
    entry := entry + ("   File: " + testInfo.file + ":" + testInfo.line + "\n");
    if testInfo.message != "" {
      entry := entry + ("   Error: " + testInfo.message + "\n");
    }
  }
}
