/** The logger object, its log call and its flush loop, for any schedule of calls between the flusher's accesses. */
module LoggerThread {
  import opened Logger

  datatype Call = Call(level: nat, line: string)

  /** What the other threads log before a round's critical section, and between it and the writes. */
  datatype Round = Round(before: seq<Call>, during: seq<Call>)

  /** The lines that pass the level test, in order. */
  function Kept(level: nat, calls: seq<Call>): seq<string> {
    if calls == [] then []
    else
      var last := calls[|calls| - 1];
      Kept(level, calls[..|calls| - 1]) + if last.level <= level then [last.line] else []
  }

  function AllCalls(rounds: seq<Round>): seq<Call> {
    if rounds == [] then []
    else AllCalls(rounds[..|rounds| - 1]) + rounds[|rounds| - 1].before + rounds[|rounds| - 1].during
  }

  lemma {:induction false} KeptConcat(level: nat, a: seq<Call>, b: seq<Call>)
    ensures Kept(level, a + b) == Kept(level, a) + Kept(level, b)
  {
    if b == [] {
      assert a + b == a;
    } else {
      KeptConcat(level, a, b[..|b| - 1]);
      assert (a + b)[..|a + b| - 1] == a + b[..|b| - 1];
    }
  }

  lemma KeptExtend(level: nat, base: seq<string>, a: seq<Call>, b: seq<Call>)
    ensures base + Kept(level, a) + Kept(level, b) == base + Kept(level, a + b)
  {
    KeptConcat(level, a, b);
  }

  lemma KeptOne(level: nat, calls: seq<Call>, call: Call)
    ensures Kept(level, calls + [call]) == Kept(level, calls) + if call.level <= level then [call.line] else []
  {
    assert (calls + [call])[..|calls|] == calls;
  }

  class AsyncLogger {
    var level: nat
    var running: bool
    var buffer: string
    var stdout: string
    var file: string
    var fileOpen: bool
    ghost var accepted: seq<string>

    /** Nothing in hand: what was accepted is written or buffered. */
    ghost predicate Valid()
      reads this
    {
      stdout + buffer == Text(accepted) && (fileOpen ==> file == stdout)
    }

    constructor (level: nat, fileOpen: bool)
      ensures Valid() && running && accepted == [] && this.level == level && this.fileOpen == fileOpen
    {
      this.level, this.fileOpen, running := level, fileOpen, true;
      buffer, stdout, file, accepted := "", "", "", [];
    }

    /** One log call. */
    method LogLine(call: Call)
      modifies `buffer, `accepted
      ensures call.level <= level ==>
                buffer == old(buffer) + call.line + "\n" && accepted == old(accepted) + [call.line]
      ensures call.level > level ==> buffer == old(buffer) && accepted == old(accepted)
    {
      if call.level <= level {
        buffer := buffer + call.line + "\n";
        accepted := accepted + [call.line];
      }
    }

    /** The other threads log; hand is what the flusher has taken and not written. */
    method OthersLog(calls: seq<Call>, ghost hand: string)
      requires stdout + hand + buffer == Text(accepted)
      modifies `buffer, `accepted
      ensures stdout + hand + buffer == Text(accepted)
      ensures accepted == old(accepted) + Kept(level, calls)
    {
      hide Text;
      for i := 0 to |calls|
        invariant stdout + hand + buffer == Text(accepted)
        invariant accepted == old(accepted) + Kept(level, calls[..i])
      {
        ghost var lines, text := accepted, buffer;
        LogLine(calls[i]);
        KeptOne(level, calls[..i], calls[i]);
        assert calls[..i + 1] == calls[..i] + [calls[i]];
        if calls[i].level <= level {
          TextAppend(lines, calls[i].line);
          assert stdout + hand + (text + calls[i].line + "\n") == stdout + hand + text + calls[i].line + "\n";
        }
      }
      assert calls[..|calls|] == calls;
    }

    /** Writes what was taken to standard output and an open file. */
    method Emit(text: string)
      modifies `stdout, `file
      ensures stdout == old(stdout) + text
      ensures file == if fileOpen then old(file) + text else old(file)
    {
      if text != "" {
        stdout := stdout + text;
        if fileOpen {
          file := file + text;
        }
      }
    }

    /** One turn of the loop: swap the buffer out, then write it. */
    method FlushRound(r: Round)
      requires Valid()
      modifies `buffer, `accepted, `stdout, `file
      ensures Valid()
      ensures accepted == old(accepted) + Kept(level, r.before + r.during)
    {
      hide Text, Kept;
      KeptConcat(level, r.before, r.during);
      assert stdout + "" + buffer == stdout + buffer;
      OthersLog(r.before, "");
      var toWrite := buffer;
      buffer := "";
      assert stdout + toWrite + buffer == stdout + "" + toWrite;
      OthersLog(r.during, toWrite);
      Emit(toWrite);
    }

    /**
     The flush loop and the final drain, for any rounds of calls; the destructor clears the flag
     after the last round, and late are the calls that come after the final critical section.
     Everything accepted before that section is on standard output, once and in order, and
     identically in an open file; what comes later stays in the buffer.
     */
    method FlushLoop(rounds: seq<Round>, last: seq<Call>, late: seq<Call>)
      requires Valid() && running
      modifies this
      ensures !running && level == old(level) && fileOpen == old(fileOpen)
      ensures stdout == Text(old(accepted) + Kept(level, AllCalls(rounds) + last)) && (fileOpen ==> file == stdout)
      ensures accepted == old(accepted) + Kept(level, AllCalls(rounds) + last) + Kept(level, late)
    {
      assert AllCalls(rounds[..0]) == [] && Kept(level, []) == [];
      hide Text, Kept, AllCalls;
      var i := 0;
      DestructorTurn(rounds, i);
      while running
        invariant 0 <= i <= |rounds| && running == (i < |rounds|)
        invariant Valid() && level == old(level) && fileOpen == old(fileOpen)
        invariant accepted == old(accepted) + Kept(level, AllCalls(rounds[..i]))
        decreases |rounds| - i
      {
        FlushRound(rounds[i]);
        AllCallsStep(rounds, i);
        KeptExtend(level, old(accepted), AllCalls(rounds[..i]), rounds[i].before + rounds[i].during);
        i := i + 1;
        DestructorTurn(rounds, i);
      }
      assert rounds[..|rounds|] == rounds;
      KeptExtend(level, old(accepted), AllCalls(rounds), last);
      FinalDrain(last, late);
    }

    /** The destructor runs, in its own thread, when the rounds of the schedule are over. */
    method DestructorTurn(rounds: seq<Round>, i: nat)
      requires running
      modifies `running
      ensures running == (i < |rounds|)
    {
      running := i < |rounds|;
    }

    /** The final drain: the buffer is copied, not cleared, and written; late calls come after the copy. */
    method FinalDrain(last: seq<Call>, late: seq<Call>)
      requires Valid()
      modifies `buffer, `accepted, `stdout, `file
      ensures stdout == Text(old(accepted) + Kept(level, last)) && (fileOpen ==> file == stdout)
      ensures accepted == old(accepted) + Kept(level, last) + Kept(level, late)
      ensures old(stdout) + buffer == Text(accepted)
    {
      hide Text, Kept;
      assert stdout + "" + buffer == stdout + buffer;
      OthersLog(last, "");
      assert stdout + "" + buffer == stdout + buffer;
      var finalContent := buffer;
      OthersLog(late, "");
      assert stdout + "" + buffer == stdout + buffer;
      Emit(finalContent);
    }
  }

  lemma AllCallsStep(rounds: seq<Round>, i: nat)
    requires i < |rounds|
    ensures AllCalls(rounds[..i + 1]) == AllCalls(rounds[..i]) + (rounds[i].before + rounds[i].during)
  {
    assert rounds[..i + 1][..i] == rounds[..i];
  }
}
