/**
  The command history of the shell (src-rp/lib/shell/src/cmd/cmd.c): a ring of eight line buffers
  that stands for the list of lines entered.
*/
module CommandHistory {

  const CMD_HIST_LINES: nat := 8

  // ---------------------------------------------------------------- the list

  /**
    What the user sees: the lines submitted, the history `lines` kept of them, how many lines
    `back` the display is, the line `saved` when browsing began, and the line shown.
  */
  datatype Editor = Editor(submitted: seq<string>, lines: seq<string>, back: nat, saved: string, shown: string)

  datatype Action = Type(text: string) | Enter | Prior | Next

  function Min(a: nat, b: nat): nat { if a <= b then a else b }

  /** How far back the history can be browsed. */
  function Depth(lines: seq<string>): nat { Min(CMD_HIST_LINES - 1, |lines|) }

  /** The `k`-th newest line. */
  function Newest(lines: seq<string>, k: nat): string
    requires 1 <= k <= |lines|
  {
    lines[|lines| - k]
  }

  /** A line as it enters the history: not at all if empty or the same as the last one. */
  function Remember(lines: seq<string>, line: string): seq<string> {
    if line == "" || (lines != [] && Newest(lines, 1) == line) then lines else lines + [line]
  }

  predicate WellFormed(e: Editor) { e.back <= Depth(e.lines) && forall i :: 0 <= i < |e.lines| ==> e.lines[i] != "" }

  function Step(e: Editor, a: Action): (r: Editor)
    requires WellFormed(e)
    ensures WellFormed(r)
  {
    match a
    case Type(text) => e.(shown := text)
    case Enter =>
      var told := e.(submitted := e.submitted + [e.shown], shown := "");
      if e.shown == "" then told else told.(lines := Remember(e.lines, e.shown), back := 0, saved := "")
    case Prior =>
      var ready := if e.back == 0 then e.(saved := e.shown) else e;
      if e.back < Depth(e.lines) then ready.(back := e.back + 1, shown := Newest(e.lines, e.back + 1)) else ready
    case Next =>
      if e.back == 0 then e
      else e.(back := e.back - 1, shown := if e.back == 1 then e.saved else Newest(e.lines, e.back - 1))
  }

  function Run(e: Editor, actions: seq<Action>): (r: Editor)
    requires WellFormed(e)
    ensures WellFormed(r)
    decreases |actions|
  {
    if actions == [] then e else Run(Step(e, actions[0]), actions[1..])
  }

  const BLANK := Editor([], [], 0, "", "")

  function NonEmpty(lines: seq<string>): (r: seq<string>)
    ensures forall line :: line in r <==> line in lines && line != ""
  {
    if lines == [] then []
    else
      var front, last := NonEmpty(lines[..|lines| - 1]), lines[|lines| - 1];
      assert lines == lines[..|lines| - 1] + [last];
      if last == "" then front else front + [last]
  }

  /** Those lines that differ from the line right before them. */
  function Changes(lines: seq<string>): seq<string> {
    var n := |lines|;
    if n == 0 then []
    else if n > 1 && lines[n - 2] == lines[n - 1] then Changes(lines[..n - 1])
    else Changes(lines[..n - 1]) + [lines[n - 1]]
  }

  /** The lines of a session with empty ones and consecutive repeats dropped. */
  function WithoutRepeats(submitted: seq<string>): seq<string> {
    Changes(NonEmpty(submitted))
  }

  lemma {:induction false} ChangesEnd(lines: seq<string>)
    ensures if lines == [] then Changes(lines) == []
            else Changes(lines) != [] && Newest(Changes(lines), 1) == Newest(lines, 1)
    decreases |lines|
  {
    var n := |lines|;
    if n > 1 && lines[n - 2] == lines[n - 1] { ChangesEnd(lines[..n - 1]); }
  }

  /** No line that is kept is empty or the same as the one kept before it. */
  lemma {:induction false} ChangesDiffer(lines: seq<string>)
    ensures forall i :: 0 < i < |Changes(lines)| ==> Changes(lines)[i] != Changes(lines)[i - 1]
    ensures forall line :: line in Changes(lines) ==> line in lines
    decreases |lines|
  {
    var n := |lines|;
    if n > 0 {
      var front := lines[..n - 1];
      assert lines == front + [lines[n - 1]];
      ChangesDiffer(front);
      ChangesEnd(front);
      assert n > 1 ==> lines[n - 2] == Newest(front, 1);
    }
  }

  lemma RememberChanges(lines: seq<string>, line: string)
    requires line != ""
    ensures Remember(Changes(lines), line) == Changes(lines + [line])
  {
    assert (lines + [line])[..|lines|] == lines;
    ChangesEnd(lines);
  }

  lemma StepRemembers(e: Editor, a: Action)
    requires WellFormed(e) && e.lines == WithoutRepeats(e.submitted)
    ensures Step(e, a).lines == WithoutRepeats(Step(e, a).submitted)
  {
    var more := e.submitted + [e.shown];
    assert more[..|more| - 1] == e.submitted;
    if e.shown != "" { RememberChanges(NonEmpty(e.submitted), e.shown); }
  }

  lemma {:induction false} RunRemembers(e: Editor, actions: seq<Action>)
    requires WellFormed(e) && e.lines == WithoutRepeats(e.submitted)
    ensures Run(e, actions).lines == WithoutRepeats(Run(e, actions).submitted)
    decreases |actions|
  {
    if actions == [] {
    } else {
      StepRemembers(e, actions[0]);
      RunRemembers(Step(e, actions[0]), actions[1..]);
    }
  }

  /** After any session the history has no empty line and no two equal neighbours; it has, in order, the
      non-empty submissions that differ from the non-empty submission before them. */
  lemma SessionRemembers(session: seq<Action>)
    ensures var e := Run(BLANK, session);
      && e.lines == Changes(NonEmpty(e.submitted))
      && (forall i :: 0 <= i < |e.lines| ==> e.lines[i] != "")
      && (forall i :: 0 < i < |e.lines| ==> e.lines[i] != e.lines[i - 1])
  {
    RunRemembers(BLANK, session);
    ChangesDiffer(NonEmpty(Run(BLANK, session).submitted));
  }

  function Repeat(a: Action, k: nat): (s: seq<Action>)
    ensures |s| == k
  {
    if k == 0 then [] else [a] + Repeat(a, k - 1)
  }

  /** `k` times prior shows the line `k` further back and keeps the line being typed. */
  lemma {:induction false} PriorsGoBack(e: Editor, k: nat)
    requires WellFormed(e) && e.back + k <= Depth(e.lines) && k >= 1
    ensures Run(e, Repeat(Prior, k))
         == e.(back := e.back + k, shown := Newest(e.lines, e.back + k), saved := if e.back == 0 then e.shown else e.saved)
    decreases k
  {
    var next := Step(e, Prior);
    assert Repeat(Prior, k)[1..] == Repeat(Prior, k - 1);
    assert Run(e, Repeat(Prior, k)) == Run(next, Repeat(Prior, k - 1));
    if k > 1 { PriorsGoBack(next, k - 1); }
  }

  lemma {:induction false} NextsReturn(e: Editor)
    requires WellFormed(e) && e.back >= 1
    ensures Run(e, Repeat(Next, e.back)) == e.(back := 0, shown := e.saved)
    decreases e.back
  {
    var next := Step(e, Next);
    assert Repeat(Next, e.back)[1..] == Repeat(Next, e.back - 1);
    if e.back > 1 { NextsReturn(next); }
  }

  /** At the seventh line back, or the oldest if there are fewer, prior changes nothing more. */
  lemma PriorStops(e: Editor)
    requires WellFormed(e) && e.back > 0 && (e.back == 7 || e.back == |e.lines|)
    ensures Step(e, Prior) == e
  { }

  lemma {:induction false} RunAppend(e: Editor, a: seq<Action>, b: seq<Action>)
    requires WellFormed(e)
    ensures Run(e, a + b) == Run(Run(e, a), b)
    decreases |a|
  {
    if a == [] {
      assert a + b == b;
    } else {
      RunAppend(Step(e, a[0]), a[1..], b);
      assert (a + b)[1..] == a[1..] + b;
    }
  }

  lemma Returns(e: Editor, there: Editor, way: seq<Action>)
    requires WellFormed(e) && Run(e, way) == there && there.back >= 1
    ensures Run(e, way + Repeat(Next, there.back)).shown == there.saved
  {
    NextsReturn(there);
    RunAppend(e, way, Repeat(Next, there.back));
  }

  lemma ThereAndBack(e: Editor, k: nat)
    requires WellFormed(e) && e.back == 0 && 1 <= k <= Depth(e.lines)
    ensures Run(e, Repeat(Prior, k)).shown == Newest(e.lines, k)
    ensures Run(e, Repeat(Prior, k) + Repeat(Next, k)).shown == e.shown
  {
    PriorsGoBack(e, k);
    Returns(e, Run(e, Repeat(Prior, k)), Repeat(Prior, k));
  }

  lemma EntersAndTypes(e: Editor, line: string, typed: string) returns (r: Editor)
    requires WellFormed(e) && e.lines == WithoutRepeats(e.submitted) && line != ""
    ensures r == Step(Step(Step(e, Type(line)), Enter), Type(typed))
    ensures WellFormed(r) && r.lines == WithoutRepeats(r.submitted) && r.submitted == e.submitted + [line]
    ensures r.back == 0 && r.shown == typed
  {
    StepRemembers(e, Type(line));
    StepRemembers(Step(e, Type(line)), Enter);
    r := Step(Step(Step(e, Type(line)), Enter), Type(typed));
  }

  /**
    After any session, a submitted line and a newly typed one: `k` times prior, for `k` up to
    seven and the size of the history, shows the `k`-th newest line of the session with consecutive
    repeats dropped, and `k` times next then restores the typed line.
  */
  lemma BrowsingRestores(session: seq<Action>, line: string, typed: string, k: nat)
    requires line != "" && 1 <= k <= 7
    ensures var e := Step(Step(Step(Run(BLANK, session), Type(line)), Enter), Type(typed));
      var lines := WithoutRepeats(e.submitted);
      && e.submitted == Run(BLANK, session).submitted + [line]
      && (k <= |lines| ==>
            && Run(e, Repeat(Prior, k)).shown == Newest(lines, k)
            && Run(e, Repeat(Prior, k) + Repeat(Next, k)).shown == typed)
  {
    RunRemembers(BLANK, session);
    var e := EntersAndTypes(Run(BLANK, session), line, typed);
    if k <= |e.lines| { ThereAndBack(e, k); }
  }

  /** Submitting an empty line while browsing keeps the place: next goes on from there. */
  lemma EmptyLineKeepsPlace(e: Editor, k: nat)
    requires WellFormed(e) && e.back == 0 && 2 <= k <= Depth(e.lines)
    ensures Run(e, Repeat(Prior, k) + [Type(""), Enter, Next]).shown == Newest(e.lines, k - 1)
  {
    PriorsGoBack(e, k);
    RunAppend(e, Repeat(Prior, k), [Type(""), Enter, Next]);
    var there := Run(e, Repeat(Prior, k));
    var blank := Step(Step(there, Type("")), Enter);
    assert [Type(""), Enter, Next][1..] == [Enter, Next] && [Enter, Next][1..] == [Next];
    assert Run(blank, [Next]) == Run(Step(blank, Next), []);
  }

  // ---------------------------------------------------------------- the ring

  /** `k` slots before slot `i` of the ring. */
  function Before(i: nat, k: nat): (j: nat)
    requires i < CMD_HIST_LINES && k <= CMD_HIST_LINES
    ensures j < CMD_HIST_LINES
  {
    if k <= i then i - k else i + CMD_HIST_LINES - k
  }

  /** `(i + 1) & (CMD_HIST_LINES - 1)` */
  function Up(i: nat): nat
    requires i < CMD_HIST_LINES
  {
    if i + 1 == CMD_HIST_LINES then 0 else i + 1
  }

  /** `(i - 1) & (CMD_HIST_LINES - 1)` */
  function Down(i: nat): nat
    requires i < CMD_HIST_LINES
  {
    if i == 0 then CMD_HIST_LINES - 1 else i - 1
  }

  /** The statics of cmd.c, and the line the shell is collecting. */
  class History {
    const cmdhist: array<string>
    var cmdNdx: nat
    var cmdhistNdx: nat
    var cmdLineTmp: string
    var getline: string
    ghost var editor: Editor

    /** The slots before the write position hold the newest lines, and are empty beyond the oldest. */
    ghost predicate Valid()
      reads this, cmdhist
    {
      && cmdhist.Length == CMD_HIST_LINES && cmdNdx < CMD_HIST_LINES
      && WellFormed(editor) && cmdhistNdx == Before(cmdNdx, editor.back)
      && cmdLineTmp == editor.saved && getline == editor.shown
      && forall k :: 1 <= k <= CMD_HIST_LINES ==>
           cmdhist[Before(cmdNdx, k)] == if k <= |editor.lines| then Newest(editor.lines, k) else ""
    }

    constructor ()
      ensures Valid() && fresh(cmdhist) && editor == BLANK
    {
      cmdhist := new string[CMD_HIST_LINES](_ => "");
      cmdNdx, cmdhistNdx, cmdLineTmp, getline := 0, 0, "", "";
      editor := BLANK;
    }

    /** The user edits the line. */
    method TypeLine(text: string)
      requires Valid()
      modifies this`getline, this`editor
      ensures Valid() && editor == Step(old(editor), Type(text))
    {
      getline := text;
      editor := Step(editor, Type(text));
    }

    /** `_cmd_history_next` */
    method HistoryNext()
      requires Valid()
      modifies this`cmdhistNdx, this`getline, this`editor
      ensures Valid() && editor == Step(old(editor), Next)
    {
      ghost var e := editor;
      editor := Step(e, Next);
      if cmdhistNdx != cmdNdx {
        assert Up(cmdhistNdx) == Before(cmdNdx, e.back - 1);
        cmdhistNdx := Up(cmdhistNdx);
        if cmdhistNdx != cmdNdx {
          getline := cmdhist[cmdhistNdx];
        } else {
          getline := cmdLineTmp;
        }
      }
    }

    /** `_cmd_history_prior` */
    method HistoryPrior()
      requires Valid()
      modifies this`cmdhistNdx, this`getline, this`cmdLineTmp, this`editor
      ensures Valid() && editor == Step(old(editor), Prior)
    {
      ghost var e := editor;
      editor := Step(e, Prior);
      if cmdhistNdx == cmdNdx { cmdLineTmp := getline; }
      var priorNdx := Down(cmdhistNdx);
      assert priorNdx == Before(cmdNdx, e.back + 1);
      if priorNdx != cmdNdx && cmdhist[priorNdx] != "" {
        cmdhistNdx := priorNdx;
        getline := cmdhist[cmdhistNdx];
      }
    }

    /** The history part of `_process_line`; the shell then collects a new line. */
    method ProcessLine()
      requires Valid()
      modifies this, cmdhist
      ensures Valid() && editor == Step(old(editor), Enter)
    {
      var line := getline;
      ghost var e := editor;
      editor := Step(e, Enter);
      if |line| > 0 {
        var pci := Down(cmdNdx);
        assert pci == Before(cmdNdx, 1);
        if line != cmdhist[pci] {
          cmdhist[cmdNdx] := line;
          cmdNdx := Up(cmdNdx);
          ghost var was := old(cmdNdx);
          forall k | 1 <= k <= CMD_HIST_LINES
            ensures cmdhist[Before(cmdNdx, k)] == if k <= |editor.lines| then Newest(editor.lines, k) else ""
          {
            if k > 1 { assert Before(cmdNdx, k) == Before(was, k - 1) != was; }
          }
        }
        cmdhistNdx := cmdNdx;
        cmdLineTmp := "";
      }
      getline := "";
    }
  }
}
