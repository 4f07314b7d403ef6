/** What the events of the append-only file achieve, beside what they keep: a flush leaves nothing in the
    buffer, a rewrite that succeeds leaves a file that stands alone, and so does turning the file on. */
module AofProgress {
  import opened Bytes
  import opened Resp
  import opened AofLoader
  import opened AofRewrite
  import opened AofProtocol

  lemma OnReloads(exec: Exec, s: State)
    requires Inv(exec, s) && s.mode.On?
    ensures Reloads(exec, s.file + s.buf, s.data, s.open)
  {
    TracksReloads(exec, s.file + s.buf, s.data, s.selected, s.open);
    hide Reloads, Tracks, Dump;
  }

  lemma FlushIs(exec: Exec, s: State)
    ensures Step(exec, s, Flush(false)) == s.(file := s.file + s.buf, buf := [])
  {
    hide Dump, RunAll, Translated, EncodeAll, Effect, Propagate, Fork;
  }

  /** After a flush that is not postponed the file alone gives the dataset. */
  lemma FlushIsDurable(exec: Exec, s: State)
    requires Inv(exec, s) && s.mode.On?
    ensures var r := Step(exec, s, Flush(false));
      && r.mode.On? && r.buf == [] && r.data == s.data && Reloads(exec, r.file, s.data, s.open)
  {
    OnReloads(exec, s);
    FlushIs(exec, s);
    hide *;
  }

  lemma TurnOffIs(exec: Exec, s: State)
    ensures var r := Step(exec, s, TurnOff);
      && r.mode.Off? && !r.fdOpen && r.buf == [] && r.child.None? && r.data == s.data && r.open == s.open
      && r.file == s.file + s.buf
  {
    hide Dump, RunAll, Translated, EncodeAll, Effect, Propagate, Fork;
  }

  /** Turning the file off leaves it complete. */
  lemma TurnOffIsDurable(exec: Exec, s: State)
    requires Inv(exec, s) && s.mode.On?
    ensures var r := Step(exec, s, TurnOff);
      && r.mode.Off? && !r.fdOpen && r.buf == [] && r.child.None? && r.data == s.data
      && Reloads(exec, r.file, s.data, s.open)
  {
    OnReloads(exec, s);
    TurnOffIs(exec, s);
    hide *;
  }

  /** A rewrite is under way. */
  ghost predicate Rewriting(s: State) {
    s.child.Some? && !s.mode.Off?
  }

  lemma RewritingStep(exec: Exec, s: State, e: Event)
    requires Rewriting(s) && Possible(exec, s, e) && !e.TurnOff? && !e.ChildDone?
    ensures Rewriting(Step(exec, s, e))
  {
    hide Dump, RunAll, Translated, EncodeAll, Describes;
  }

  /** Nothing ends the rewrite but its child's end and turning the file off. */
  lemma {:induction false} RewritingGoesOn(exec: Exec, s: State, es: seq<Event>)
    requires Rewriting(s) && PossibleRun(exec, s, es)
    requires forall i :: 0 <= i < |es| ==> !es[i].TurnOff? && !es[i].ChildDone?
    ensures Rewriting(After(exec, s, es))
    decreases |es|
  {
    if es != [] {
      assert Possible(exec, s, es[0]) && !es[0].TurnOff? && !es[0].ChildDone?;
      RewritingStep(exec, s, es[0]);
      assert forall i :: 0 <= i < |es[1..]| ==> es[1..][i] == es[i + 1];
      RewritingGoesOn(exec, Step(exec, s, es[0]), es[1..]);
    }
  }

  lemma RewritingReloads(exec: Exec, s: State)
    requires Inv(exec, s) && Rewriting(s)
    ensures s.fdOpen && Reloads(exec, Dump(s.child.value) + s.diff, s.data, s.open)
  {
    TracksReloads(exec, Dump(s.child.value) + s.diff, s.data, s.selected, s.open);
    hide Reloads, Tracks, Dump;
  }

  lemma SwitchIs(exec: Exec, s: State)
    requires s.child.Some? && !s.mode.Off? && s.fdOpen
    ensures var r := Step(exec, s, ChildDone(true));
      && r.mode.On? && r.fdOpen && r.buf == [] && r.child.None? && r.diff == [] && r.data == s.data
      && r.open == s.open && r.file == Dump(s.child.value) + s.diff
  {
    hide Dump, RunAll, Translated, EncodeAll, Effect, Propagate, Fork;
  }

  lemma SwitchStands(exec: Exec, s: State)
    requires Inv(exec, s) && Rewriting(s)
    ensures var r := Step(exec, s, ChildDone(true));
      && r.mode.On? && r.fdOpen && r.buf == [] && r.child.None? && r.diff == [] && r.data == s.data
      && r.open == s.open && Reloads(exec, r.file, r.data, r.open)
  {
    RewritingReloads(exec, s);
    SwitchIs(exec, s);
    hide *;
  }

  /** Turning the file on, or a rewrite, whatever else happens until its child is done: when the child
      succeeds the file is on and stands alone for the dataset, and nothing is left of the rewrite. */
  lemma RewriteCompletes(exec: Exec, s: State, begin: Event, snapshot: Snapshot, es: seq<Event>)
    requires Sane(exec) && Inv(exec, s) && s.child.None? && Possible(exec, s, begin)
    requires begin == TurnOn(true, true, snapshot) || (begin == Rewrite(true, snapshot) && !s.mode.Off?)
    requires PossibleRun(exec, Step(exec, s, begin), es)
    requires forall i :: 0 <= i < |es| ==> !es[i].TurnOff? && !es[i].ChildDone?
    ensures var t := After(exec, Step(exec, s, begin), es);
      && t.child.Some?
      && var r := Step(exec, t, ChildDone(true));
      && r.mode.On? && r.fdOpen && r.buf == [] && r.child.None? && r.diff == [] && r.data == t.data
      && Reloads(exec, r.file, r.data, r.open)
  {
    StepKeepsInv(exec, s, begin);
    RunKeepsInv(exec, Step(exec, s, begin), es);
    assert Rewriting(Step(exec, s, begin));
    RewritingGoesOn(exec, Step(exec, s, begin), es);
    var t := After(exec, Step(exec, s, begin), es);
    hide PossibleRun, Sane, Describes, After, Translated, RunAll, Dump;
    SwitchStands(exec, t);
  }

  /** A child that fails changes neither the file nor what it stands for; when it was the one the file waits
      for, another is to follow. */
  lemma RewriteFails(exec: Exec, s: State)
    requires Inv(exec, s) && s.child.Some?
    ensures var r := Step(exec, s, ChildDone(false));
      && r.file == s.file && r.buf == s.buf && r.mode == s.mode && r.data == s.data && r.selected == s.selected
      && r.child.None? && r.diff == [] && (s.mode.WaitRewrite? || s.scheduled <==> r.scheduled)
  {
  }

  /** A child that is alive is not replaced, and a fork that fails or a file that does not open change
      nothing of the rewrite. */
  lemma NoSecondChild(exec: Exec, s: State, forkOk: bool, snapshot: Snapshot)
    requires Inv(exec, s) && (s.child.Some? || !forkOk)
    ensures Step(exec, s, Rewrite(forkOk, snapshot)) == s
    ensures forall openOk :: var r := Step(exec, s, TurnOn(openOk, forkOk, snapshot));
              r == s.(fdOpen := openOk)
  {
  }

  /** Whether a block is open after events, given whether one was before. */
  function BlockOpen(open: bool, es: seq<Event>): bool
    decreases |es|
  {
    if es == [] then open
    else BlockOpen(if es[0].BeginBlock? then true else if es[0].EndBlock? then false else open, es[1..])
  }

  lemma OpenStep(exec: Exec, s: State, e: Event)
    requires Possible(exec, s, e)
    ensures Step(exec, s, e).open <==> if e.BeginBlock? then true else if e.EndBlock? then false else s.open
  {
    hide Dump, RunAll, Translated, EncodeAll, Describes;
  }

  lemma {:induction false} OpenIff(exec: Exec, s: State, es: seq<Event>)
    requires PossibleRun(exec, s, es)
    ensures After(exec, s, es).open <==> BlockOpen(s.open, es)
    decreases |es|
  {
    if es != [] {
      OpenStep(exec, s, es[0]);
      OpenIff(exec, Step(exec, s, es[0]), es[1..]);
      hide Step, Possible;
    }
  }

}
