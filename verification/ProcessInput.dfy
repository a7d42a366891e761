/** process_input (shell.c 4123-4255) with its growing statement buffer. */
module ProcessInput {
  import opened CBytes
  import opened CStrings
  import opened Whitespace
  import opened SqlInput

  class Shell {
    /** The statement buffer; its length is nAlloc, 0 before the first use. */
    var zSql: array<Byte>
    var nSql: nat
    var lineno: nat
    var startline: nat
    var events: seq<Event>
    var errCnt: nat
    var exit: bool

    /** A byte for a semicolon and one for a terminator are always free. */
    ghost predicate Valid()
      reads this, zSql
    {
      && (zSql.Length == 0 ==> nSql == 0)
      && (zSql.Length > 0 ==> nSql + 2 <= zSql.Length)
      && (nSql > 0 ==> zSql[nSql] == NUL)
      && NulFree(zSql[..nSql])
      && (zSql.Length > 0 <==> nSql > 0 || HasBuffer(events))
      && (nSql > 0 ==> 1 <= startline <= lineno)
    }

    ghost function View(): State
      requires nSql <= zSql.Length && (nSql > 0 ==> startline >= 1)
      reads this, zSql
    {
      State(zSql[..nSql], if nSql > 0 then startline - 1 else lineno, lineno, events, errCnt, exit)
    }

    constructor ()
      ensures Valid() && fresh(zSql) && View() == INITIAL
    {
      zSql := new Byte[0];
      nSql, lineno, startline, events, errCnt, exit := 0, 0, 0, [], 0, false;
      new;
      assert zSql[..0] == [];
    }

    /** Asks whether the text would be complete with a semicolon, which is
        written behind it for the question only. */
    method LineIsComplete(env: Env) returns (rc: bool)
      requires Valid()
      modifies zSql
      ensures Valid() && View() == old(View())
      ensures rc <==> zSql.Length == 0 || env.complete(zSql[..nSql] + [SEMI])
    {
      if zSql.Length == 0 {
        return true;
      }
      ghost var text := zSql[..nSql];
      zSql[nSql] := SEMI;
      zSql[nSql + 1] := NUL;
      assert zSql[..nSql + 1] == text + [SEMI];
      rc := env.complete(zSql[..nSql + 1]);
      zSql[nSql] := NUL;
      assert zSql[..nSql] == text;
    }

    /** Makes room for the line, a line break and a terminator. */
    method Reserve(nLine: nat)
      requires nSql <= zSql.Length
      modifies this`zSql
      ensures nSql + nLine + 2 < zSql.Length && zSql[..nSql] == old(zSql[..nSql])
      ensures zSql == old(zSql) || fresh(zSql)
    {
      if nSql + nLine + 2 >= zSql.Length {
        var bigger := new Byte[nSql + nLine + 100];
        for i := 0 to nSql
          invariant zSql == old(zSql) && zSql[..] == old(zSql[..]) && bigger[..i] == zSql[..i]
        {
          bigger[i] := zSql[i];
        }
        zSql := bigger;
      }
    }

    /** Copies a text and a terminator to the end of the buffer. */
    method Put(text: Bytes)
      requires nSql + |text| < zSql.Length
      modifies this`nSql, zSql
      ensures nSql == old(nSql) + |text| && zSql[..nSql] == old(zSql[..nSql]) + text && zSql[nSql] == NUL
    {
      ghost var before := zSql[..nSql];
      for i := 0 to |text|
        invariant nSql == old(nSql) && zSql[..nSql] == before && zSql[nSql..nSql + i] == text[..i]
      {
        zSql[nSql + i] := text[i];
      }
      zSql[nSql + |text|] := NUL;
      nSql := nSql + |text|;
      assert zSql[..nSql] == before + text;
    }

    /** Adds a line to the text: the first one without its leading space. */
    method Gather(l: Bytes)
      requires nSql <= zSql.Length && NulFree(l)
      modifies this`zSql, this`nSql, this`startline, zSql
      ensures zSql == old(zSql) || fresh(zSql)
      ensures nSql + 2 <= zSql.Length && zSql[nSql] == NUL
      ensures zSql[..nSql] == var t := old(zSql[..nSql]); if t == [] then TrimLeft(l) else t + [LF] + l
      ensures startline == if old(nSql) == 0 then lineno else old(startline)
    {
      Reserve(|l|);
      if nSql == 0 {
        var i := 0;
        while IsSpace(At(l, i))
          invariant i <= |l| && SkipSpaces(l, i) == SkipSpaces(l, 0)
          decreases |l| - i
        {
          i := i + 1;
        }
        startline := lineno;
        Put(l[i..]);
      } else {
        ghost var t := zSql[..nSql];
        zSql[nSql] := LF;
        nSql := nSql + 1;
        assert zSql[..nSql] == t + [LF];
        Put(l);
      }
    }

    method LineContainsSemicolon(from: nat) returns (r: bool)
      requires from <= nSql <= zSql.Length
      ensures r <==> SEMI in zSql[..nSql][from..]
    {
      ghost var added := zSql[..nSql][from..];
      for i := from to nSql
        invariant forall k :: 0 <= k < i - from ==> added[k] != SEMI
      {
        if zSql[i] == SEMI {
          assert added[i - from] == SEMI;
          return true;
        }
      }
      r := false;
    }

    /** Runs the gathered text, resolving its escapes first if asked to, and empties the buffer. */
    method Execute(env: Env)
      requires 0 < nSql && nSql + 2 <= zSql.Length && zSql[nSql] == NUL && NulFree(zSql[..nSql])
      requires 1 <= startline <= lineno
      modifies this`nSql, this`events, this`errCnt, zSql
      ensures var sql := Statement(env, old(zSql[..nSql]));
              var e := Executed(startline - 1, lineno, sql, env.fails(lineno - 1, sql));
              events == old(events) + [e] && errCnt == old(errCnt) + (if e.Failed() then 1 else 0)
      ensures nSql == 0
    {
      ghost var text := zSql[..nSql];
      assert Holds(zSql, 0, text) by {
        assert forall k :: 0 <= k < |text| ==> zSql[0 + k] == text[k];
      }
      var sql: Bytes;
      if env.backslashOn {
        ResolveBackslashes(zSql, 0, text);
        sql := CText(zSql, Decoded(text));
      } else {
        sql := CText(zSql, text);
      }
      var failed := env.fails(lineno - 1, sql);
      events := events + [Executed(startline - 1, lineno, sql, failed)];
      if failed {
        errCnt := errCnt + 1;
      }
      nSql := 0;
    }

    /** Executes or drops the text, or leaves it for the next line. */
    method Dispatch(env: Env, prior: nat, ghost before: State)
      requires prior <= nSql && nSql + 2 <= zSql.Length && zSql[nSql] == NUL && NulFree(zSql[..nSql])
      requires nSql > 0 && 1 <= startline <= lineno
      requires before == State(zSql[..prior], startline - 1, lineno - 1, events, errCnt, exit)
      modifies this`nSql, this`events, this`errCnt, zSql
      ensures Valid() && View() == Dispatched(env, before, old(zSql[..nSql]), lineno)
    {
      hide AllBlank, Statement, NulFree;
      ghost var text := zSql[..nSql];
      var semi := LineContainsSemicolon(prior);
      assert semi && env.complete(text) <==> Ready(env, before.text, text);
      if semi && env.complete(zSql[..nSql]) {
        ghost var earlier := events;
        Execute(env);
        EmptyAgain(earlier, events[|earlier|]);
      } else {
        var blank := AllWhitespace(zSql[..nSql], 0);
        if blank {
          ghost var earlier := events;
          events := events + [Discarded(startline - 1, lineno)];
          nSql := 0;
          EmptyAgain(earlier, events[|earlier|]);
        }
      }
    }

    /** The buffer is empty again after an event that used it. */
    lemma EmptyAgain(earlier: seq<Event>, e: Event)
      requires nSql == 0 && zSql.Length >= 2 && events == earlier + [e] && e.UsedBuffer()
      ensures Valid() && zSql[..nSql] == []
    {
      HasBufferNext(earlier, e);
    }

    /** Notes a line that does not use the buffer. */
    method Record(e: Event)
      requires Valid() && !e.UsedBuffer()
      modifies this`events
      ensures Valid() && events == old(events) + [e]
    {
      HasBufferNext(events, e);
      events := events + [e];
    }

    /** Handles a line that reaches an empty buffer, unless it starts a statement. */
    method FeedEmpty(env: Env, line: Bytes) returns (taken: bool)
      requires Valid() && NulFree(line) && !exit && nSql == 0 && lineno > 0
      modifies this`events, this`errCnt, this`exit
      ensures Valid()
      ensures taken <==> AllBlank(line, 0) || (line != [] && line[0] == DOT)
      ensures taken ==> var before := State([], lineno - 1, lineno - 1, old(events), old(errCnt), false);
                        View() == Step(env, before, line)
      ensures !taken ==> events == old(events) && errCnt == old(errCnt) && !exit
    {
      hide AllBlank, NulFree;
      taken := AllWhitespace(line, 0);
      assert zSql[..0] == [];
      if taken {
        Record(Skipped(lineno - 1));
      } else if line != [] && line[0] == DOT {
        taken := true;
        var rc := env.command(lineno - 1, line);
        if rc == 2 {
          exit := true;
        } else if rc != 0 {
          errCnt := errCnt + 1;
        }
        Record(Command(lineno - 1, rc));
      }
    }

    /** One round of the input loop. */
    method Feed(env: Env, line: Bytes)
      requires Valid() && NulFree(line) && !exit
      modifies this, zSql
      ensures Valid() && (zSql == old(zSql) || fresh(zSql))
      ensures View() == Step(env, old(View()), line)
    {
      hide AllBlank, IsTerminator, Dispatched, NulFree, TrimLeft, HasBuffer;
      ghost var before := View();
      lineno := lineno + 1;
      if nSql == 0 {
        assert zSql[..0] == [];
        var taken := FeedEmpty(env, line);
        if taken {
          return;
        }
      }
      FeedStatement(env, line, before);
    }

    /** A line that begins or continues a statement. */
    method FeedStatement(env: Env, line: Bytes, ghost before: State)
      requires Valid() && NulFree(line) && !exit && lineno > 0
      requires before == State(zSql[..nSql], (if nSql > 0 then startline else lineno) - 1, lineno - 1,
                               events, errCnt, exit)
      requires nSql == 0 ==> !AllBlank(line, 0) && (line == [] || line[0] != DOT)
      modifies this, zSql
      ensures Valid() && (zSql == old(zSql) || fresh(zSql))
      ensures View() == Step(env, before, line)
    {
      hide AllBlank, IsTerminator, Dispatched, NulFree, TrimLeft, HasBuffer;
      var l := line;
      var terminator := LineIsCommandTerminator(line);
      if terminator {
        var complete := LineIsComplete(env);
        if complete {
          l := [SEMI];
        }
      }
      ghost var hb := before.text != [] || HasBuffer(before.events);
      assert l == Terminated(env, before.text, line, hb);
      GatheredIsSomething(env, before.text, line, hb);
      GatheredNulFree(env, before.text, line, hb);
      TerminatedNulFree(env, before.text, line, hb);
      var prior := nSql;
      Gather(l);
      assert zSql[..nSql] == Gathered(env, before.text, line, hb);
      PrefixKept(env, before.text, line, hb);
      Dispatch(env, prior, before);
    }
  }

  lemma TerminatedNulFree(env: Env, text: Bytes, line: Bytes, hasBuffer: bool)
    requires NulFree(line)
    ensures NulFree(Terminated(env, text, line, hasBuffer))
  {
  }

  lemma PrefixKept(env: Env, text: Bytes, line: Bytes, hasBuffer: bool)
    ensures text <= Gathered(env, text, line, hasBuffer)
  {
  }

  /** The whole input; the result says whether there were errors. */
  method ProcessLines(env: Env, lines: seq<Bytes>) returns (failed: bool, shell: Shell)
    requires forall i :: 0 <= i < |lines| ==> NulFree(lines[i])
    ensures fresh(shell) && shell.Valid()
    ensures shell.View() == Run(env, INITIAL, lines) && (failed <==> FinalErrors(Run(env, INITIAL, lines)) > 0)
  {
    hide Step, AllBlank;
    shell := new Shell();
    while !shell.exit && (shell.errCnt == 0 || env.lenient(shell.lineno)) && shell.lineno < |lines|
      invariant fresh(shell) && fresh(shell.zSql) && shell.Valid() && shell.lineno <= |lines|
      invariant Run(env, shell.View(), lines) == Run(env, INITIAL, lines)
      decreases |lines| - shell.lineno
    {
      StepAdvances(env, shell.View(), lines[shell.lineno]);
      shell.Feed(env, lines[shell.lineno]);
    }
    var errCnt := shell.errCnt;
    if shell.nSql > 0 {
      var blank := AllWhitespace(shell.zSql[..shell.nSql], 0);
      if !blank {
        errCnt := errCnt + 1;
      }
    }
    failed := errCnt > 0;
  }

  lemma StepAdvances(env: Env, s: State, line: Bytes)
    ensures Step(env, s, line).next == s.next + 1
  {
  }
}
