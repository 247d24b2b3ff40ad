/**
 The asynchronous logger: callers append lines to a buffer under a mutex, a flusher thread
 swaps the buffer out and writes it to standard output and to the log file.
 */
module Logger {

  /** Where the flusher thread stands. */
  datatype Flusher =
    | NotStarted
    | Top
    | Grab
    | Out(text: string)
    | ToFile(text: string)
    | FinalGrab
    | FinalOut(text: string)
    | FinalToFile(text: string)
    | Exited

  /** Where the one effective call of init stands. */
  datatype InitPc =
    | NotCalled
    | SetLevel(level: nat, filename: string)
    | OpenFile(filename: string)
    | SetRunning
    | Spawn
    | Ready

  datatype Destroyer = Alive | Joining | Gone

  /**
   The logger, its callers that passed the level test but do not hold the mutex yet, and the
   record of the run: lines accepted in lock order, and how many of them there were when the
   final drain took the buffer.
   */
  datatype Log = Log(
    level: nat, initialized: bool, running: bool, init: InitPc, flusher: Flusher, destroyer: Destroyer,
    buffer: string, stdout: string, file: string, fileOpen: bool,
    waiting: multiset<string>,
    accepted: seq<string>, cut: nat)

  /** Lines as they stand in the buffer. */
  function Text(lines: seq<string>): string {
    if lines == [] then "" else Text(lines[..|lines| - 1]) + lines[|lines| - 1] + "\n"
  }

  datatype Move =
    | LogCall(level: nat, line: string)
    | Append(line: string)
    | InitCall(filename: string, level: nat)
    | InitStep(opens: bool)
    | FlushStep
    | DestroyStep

  function Flush(s: Log): Log {
    match s.flusher
    case NotStarted => s
    case Top => s.(flusher := if s.running then Grab else FinalGrab)
    case Grab => s.(flusher := if s.buffer != "" then Out(s.buffer) else Top, buffer := "")
    case Out(text) => s.(stdout := s.stdout + text, flusher := if s.fileOpen then ToFile(text) else Top)
    case ToFile(text) => s.(file := s.file + text, flusher := Top)
    case FinalGrab => s.(flusher := if s.buffer != "" then FinalOut(s.buffer) else Exited, cut := |s.accepted|)
    case FinalOut(text) => s.(stdout := s.stdout + text, flusher := if s.fileOpen then FinalToFile(text) else Exited)
    case FinalToFile(text) => s.(file := s.file + text, flusher := Exited)
    case Exited => s
  }

  /** One step of the call of init that won the exchange. */
  function Initialise(s: Log, opens: bool): Log {
    match s.init
    case NotCalled => s
    case SetLevel(level, filename) => s.(level := level, init := OpenFile(filename))
    case OpenFile(filename) => s.(fileOpen := filename != "" && opens, init := SetRunning)
    case SetRunning => s.(running := true, init := Spawn)
    case Spawn => s.(flusher := Top, init := Ready)
    case Ready => s
  }

  /** The destructor; it does not overlap init, and it waits for a flusher that was started. */
  predicate CanDestroy(s: Log) {
    && (s.init.NotCalled? || s.init.Ready?)
    && (s.destroyer.Joining? ==> s.flusher.NotStarted? || s.flusher.Exited?)
  }

  function Destroy(s: Log): Log {
    match s.destroyer
    case Alive => s.(running := false, destroyer := Joining)
    case Joining => s.(destroyer := Gone)
    case Gone => s
  }

  predicate Next(s: Log, move: Move, s': Log) {
    match move
    case LogCall(level, line) => s' == if level <= s.level then s.(waiting := s.waiting + multiset{line}) else s
    case Append(line) =>
      && line in s.waiting
      && s' == s.(waiting := s.waiting - multiset{line}, buffer := s.buffer + line + "\n",
                  accepted := s.accepted + [line])
    case InitCall(filename, level) =>
      && s.destroyer.Alive?
      && s' == if s.initialized then s else s.(initialized := true, init := SetLevel(level, filename))
    case InitStep(opens) => s' == Initialise(s, opens)
    case FlushStep => s' == Flush(s)
    case DestroyStep => CanDestroy(s) && s' == Destroy(s)
  }

  predicate Start(s: Log) {
    s == Log(0, false, false, NotCalled, NotStarted, Alive, "", "", "", false, multiset{}, [], 0)
  }

  predicate Run(states: seq<Log>, moves: seq<Move>) {
    && |states| == |moves| + 1 && Start(states[0])
    && forall k | 0 <= k < |moves| :: Next(states[k], moves[k], states[k + 1])
  }

  // ----- the invariant -----

  /** Taken from the buffer, not yet on standard output. */
  function InHand(f: Flusher): string {
    match f
    case Out(text) => text
    case FinalOut(text) => text
    case _ => ""
  }

  /** On standard output, not yet in the file. */
  function FileLag(f: Flusher): string {
    match f
    case ToFile(text) => text
    case FinalToFile(text) => text
    case _ => ""
  }

  /** The final drain has taken the buffer; it does not clear it. */
  predicate Drained(f: Flusher) {
    f.FinalOut? || f.FinalToFile? || f.Exited?
  }

  predicate Conserved(s: Log) {
    if Drained(s.flusher) then
      && s.cut <= |s.accepted|
      && s.stdout + InHand(s.flusher) == Text(s.accepted[..s.cut])
    else s.stdout + InHand(s.flusher) + s.buffer == Text(s.accepted)
  }

  predicate FileAgrees(s: Log) {
    s.fileOpen ==> s.file + FileLag(s.flusher) == s.stdout
  }

  predicate Phases(s: Log) {
    && (s.initialized <==> !s.init.NotCalled?)
    && (s.flusher.NotStarted? <==> !s.init.Ready?)
    && (s.flusher.NotStarted? ==> s.stdout == "" && s.file == "")
    && (!s.destroyer.Alive? ==> !s.running && (s.init.NotCalled? || s.init.Ready?))
    && (s.destroyer.Gone? ==> s.flusher.NotStarted? || s.flusher.Exited?)
    && (!s.fileOpen ==> FileLag(s.flusher) == "")
  }

  predicate Inv(s: Log) {
    Conserved(s) && FileAgrees(s) && Phases(s)
  }

  lemma TextAppend(lines: seq<string>, line: string)
    ensures Text(lines + [line]) == Text(lines) + line + "\n"
  {
    assert (lines + [line])[..|lines|] == lines;
  }

  lemma AppendKeepsInv(s: Log, line: string, s': Log)
    requires Inv(s) && Next(s, Append(line), s')
    ensures Inv(s')
  {
    TextAppend(s.accepted, line);
    hide Text;
    if Drained(s.flusher) {
      assert s'.accepted[..s.cut] == s.accepted[..s.cut];
    } else {
      assert s.stdout + InHand(s.flusher) + (s.buffer + line + "\n")
          == s.stdout + InHand(s.flusher) + s.buffer + line + "\n";
    }
  }

  lemma FlushKeepsInv(s: Log)
    requires Inv(s)
    ensures Inv(Flush(s))
  {
    hide Text;
    var s' := Flush(s);
    match s.flusher
    case Grab =>
      assert s.stdout + "" + s.buffer == s.stdout + s.buffer + "";
    case Out(text) =>
      assert s.stdout + text + "" + s.buffer == s.stdout + text + s.buffer;
      assert s.fileOpen ==> s.file + "" == s.stdout;
    case FinalGrab =>
      assert s.accepted[..|s.accepted|] == s.accepted;
      assert s.stdout + "" + s.buffer == s.stdout + s.buffer;
      assert s.buffer == "" ==> s.stdout + s.buffer == s.stdout + "";
    case FinalOut(text) =>
      assert s.stdout + text + "" == s.stdout + text;
      assert s.fileOpen ==> s.file + "" == s.stdout;
    case _ =>
  }

  lemma NextKeepsInv(s: Log, move: Move, s': Log)
    requires Inv(s) && Next(s, move, s')
    ensures Inv(s')
  {
    match move
    case Append(line) => AppendKeepsInv(s, line, s');
    case FlushStep => FlushKeepsInv(s);
    case _ => hide Text;
  }

  lemma {:induction false} RunIsSafe(states: seq<Log>, moves: seq<Move>, n: nat)
    requires Run(states, moves) && n < |states|
    ensures Inv(states[n])
  {
    if n > 0 {
      hide Inv, Next;
      var j := n - 1;
      RunIsSafe(states, moves, j);
      NextKeepsInv(states[j], moves[j], states[j + 1]);
    }
  }

  // ----- what the logger guarantees -----

  /** The lines of the calls that passed the level in force when they were made. */
  function Passed(states: seq<Log>, moves: seq<Move>, n: nat): multiset<string>
    requires n <= |moves| <= |states|
  {
    if n == 0 then multiset{}
    else
      var m := moves[n - 1];
      Passed(states, moves, n - 1)
      + if m.LogCall? && m.level <= states[n - 1].level then multiset{m.line} else multiset{}
  }

  /** Every call that passes is accepted once, or still waits for the mutex. */
  lemma {:induction false} AcceptedOrWaiting(states: seq<Log>, moves: seq<Move>, n: nat)
    requires Run(states, moves) && n < |states|
    ensures multiset(states[n].accepted) + states[n].waiting == Passed(states, moves, n)
  {
    if n > 0 {
      AcceptedOrWaiting(states, moves, n - 1);
      assert Next(states[n - 1], moves[n - 1], states[n]);
      StepAccepts(states[n - 1], moves[n - 1], states[n]);
    }
  }

  lemma StepAccepts(s: Log, move: Move, s': Log)
    requires Next(s, move, s')
    ensures multiset(s'.accepted) + s'.waiting
         == multiset(s.accepted) + s.waiting
            + if move.LogCall? && move.level <= s.level then multiset{move.line} else multiset{}
  {
    hide Flush, Initialise, Destroy, CanDestroy;
    match move
    case Append(line) =>
      assert multiset(s.accepted + [line]) == multiset(s.accepted) + multiset{line};
      assert (s.waiting - multiset{line}) + multiset{line} == s.waiting;
    case FlushStep => FlushLeavesCalls(s);
    case InitStep(opens) => InitLeavesCalls(s, opens);
    case DestroyStep => DestroyLeavesCalls(s);
    case _ =>
  }

  lemma FlushLeavesCalls(s: Log)
    ensures Flush(s).accepted == s.accepted && Flush(s).waiting == s.waiting
  {
  }

  lemma InitLeavesCalls(s: Log, opens: bool)
    ensures Initialise(s, opens).accepted == s.accepted && Initialise(s, opens).waiting == s.waiting
  {
  }

  lemma DestroyLeavesCalls(s: Log)
    ensures Destroy(s).accepted == s.accepted && Destroy(s).waiting == s.waiting
  {
  }

  /** Where the one effective call of init, with this level and file name, stands. */
  predicate InitAsCalled(s: Log, level: nat, filename: string) {
    match s.init
    case NotCalled => false
    case SetLevel(l, f) => l == level && f == filename && !s.fileOpen && s.level == 0
    case OpenFile(f) => f == filename && s.level == level && !s.fileOpen
    case _ => s.level == level && (s.fileOpen ==> filename != "")
  }

  /** The first call of init decides level and file; before it the level is the default. */
  lemma {:induction false} FirstInitDecides(states: seq<Log>, moves: seq<Move>, j: nat, n: nat)
    requires Run(states, moves) && j <= |moves| && n < |states|
    requires forall i | 0 <= i < j && i < n :: !moves[i].InitCall?
    requires j < |moves| ==> moves[j].InitCall?
    ensures n <= j ==>
              states[n].level == 0 && states[n].init.NotCalled? && !states[n].fileOpen && !states[n].initialized
    ensures j < n ==> states[n].initialized && InitAsCalled(states[n], moves[j].level, moves[j].filename)
    decreases n
  {
    if n > 0 {
      FirstInitDecides(states, moves, j, n - 1);
      assert Next(states[n - 1], moves[n - 1], states[n]);
    }
  }

  /** A line is written as its characters and a newline. */
  lemma TextOfTwo(lines: seq<string>, more: seq<string>, line: string)
    ensures Text([line]) == line + "\n"
    ensures Text(lines + more) == Text(lines) + Text(more)
    decreases |more|
  {
    assert [line][..0] == [] && Text([]) == "";
    if more == [] {
      assert lines + more == lines;
    } else {
      TextOfTwo(lines, more[..|more| - 1], line);
      assert (lines + more)[..|lines + more| - 1] == lines + more[..|more| - 1];
    }
  }

  /** At every point before the final drain: written, in hand and buffered are the accepted lines, in lock order. */
  lemma NothingLostOrRepeated(states: seq<Log>, moves: seq<Move>, n: nat)
    requires Run(states, moves) && n < |states| && !Drained(states[n].flusher)
    ensures var s := states[n]; s.stdout + InHand(s.flusher) + s.buffer == Text(s.accepted)
  {
    RunIsSafe(states, moves, n);
  }

  /**
   After the destruction of an initialised logger every line accepted before the final drain's
   critical section stands on standard output once, in lock order, and identically in an open
   file; a line accepted later is not written.
   */
  lemma WrittenOnceAfterDestruction(states: seq<Log>, moves: seq<Move>, n: nat)
    requires Run(states, moves) && n < |states|
    requires states[n].destroyer.Gone? && states[n].init.Ready?
    ensures var s := states[n];
      && s.cut <= |s.accepted|
      && s.stdout == Text(s.accepted[..s.cut])
      && (s.fileOpen ==> s.file == s.stdout)
      && (s.stdout == Text(s.accepted) <==> s.cut == |s.accepted|)
  {
    RunIsSafe(states, moves, n);
    var s := states[n];
    TextLength(s.accepted, s.cut);
    hide Text, Run;
    assert s.accepted[..|s.accepted|] == s.accepted;
    assert s.stdout + "" == s.stdout && s.file + "" == s.file;
  }

  lemma {:induction false} TextLength(lines: seq<string>, k: nat)
    requires k <= |lines|
    ensures |Text(lines[..k])| <= |Text(lines)|
    ensures k < |lines| ==> |Text(lines[..k])| < |Text(lines)|
    decreases |lines|
  {
    if k < |lines| {
      var init := lines[..|lines| - 1];
      TextLength(init, k);
      assert init[..k] == lines[..k];
    } else {
      assert lines[..k] == lines;
    }
  }

  /** Without init nothing is ever written; the lines stay in the buffer. */
  lemma UninitialisedWritesNothing(states: seq<Log>, moves: seq<Move>, n: nat)
    requires Run(states, moves) && n < |states| && !states[n].initialized
    ensures states[n].stdout == "" && states[n].file == "" && states[n].buffer == Text(states[n].accepted)
  {
    RunIsSafe(states, moves, n);
    var s := states[n];
    hide Text, Run;
    assert s.stdout + "" + s.buffer == s.buffer;
  }

  /** Steps the flusher still takes once running is false. */
  function FlushRank(f: Flusher): nat {
    match f
    case NotStarted => 0
    case Exited => 0
    case FinalToFile(_) => 1
    case FinalOut(_) => 2
    case FinalGrab => 3
    case Top => 4
    case ToFile(_) => 5
    case Out(_) => 6
    case Grab => 7
  }

  function FlushSteps(moves: seq<Move>): nat {
    if moves == [] then 0
    else FlushSteps(moves[..|moves| - 1]) + if moves[|moves| - 1].FlushStep? then 1 else 0
  }

  lemma NextSpendsRank(s: Log, move: Move, s': Log)
    requires Inv(s) && Next(s, move, s') && !s.destroyer.Alive?
    ensures !s'.destroyer.Alive?
    ensures FlushRank(s'.flusher) <= FlushRank(s.flusher)
    ensures move.FlushStep? && FlushRank(s.flusher) > 0 ==> FlushRank(s'.flusher) < FlushRank(s.flusher)
  {
    hide Conserved, FileAgrees, Text;
  }

  /** The join returns: after the destructor has cleared running, seven flusher steps are enough. */
  lemma {:induction false} JoinReturns(states: seq<Log>, moves: seq<Move>, a: nat, b: nat)
    requires Run(states, moves) && a <= b < |states| && !states[a].destroyer.Alive?
    ensures !states[b].destroyer.Alive?
    ensures FlushRank(states[b].flusher) == 0
            || FlushRank(states[b].flusher) + FlushSteps(moves[a..b]) <= FlushRank(states[a].flusher) <= 7
    decreases b
  {
    hide Inv, Next;
    if a < b {
      var j := b - 1;
      JoinReturns(states, moves, a, j);
      RunIsSafe(states, moves, j);
      NextSpendsRank(states[j], moves[j], states[j + 1]);
      assert moves[a..b][..|moves[a..b]| - 1] == moves[a..j];
    }
  }
}
