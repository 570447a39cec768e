/** When departures are exactly the commands, in their order. */
module MailboxOrder {
  import opened Layout
  import opened Mailbox

  predicate Busy(w: World, i: U32)
    requires i in w.aps
  {
    w.aps[i] != PollCommand && w.aps[i] != Left
  }

  ghost predicate Quiet(w: World) {
    forall i :: i in w.aps ==> !Busy(w, i)
  }

  /** A schedule whose OS names a processor only while no poll is under way. */
  ghost predicate QuietNaming(w: World, acts: seq<Act>)
    decreases |acts|
  {
    acts != [] ==> (acts[0].Name? && w.os == Idle ==> Quiet(w)) && QuietNaming(Next(w, acts[0]), acts[1..])
  }

  /** A processor mid-poll is either the one commanded, or about to find that it is not. */
  ghost predicate OnTrack(w: World, i: U32)
    requires i in w.aps
  {
    Busy(w, i) ==>
      && w.os != Named && w.os != Aimed
      && (i != w.index || w.command == 0 ==> w.aps[i] == PollIndex)
      && (w.command == 0 ==> i != w.index)
      && (w.aps[i].Claim? ==> w.aps[i].vector == w.vector)
  }

  /** Departures are the commands, in order, up to the one outstanding. */
  ghost predicate Exact(w: World) {
    && (forall i :: i in w.aps ==> i >= 1 && OnTrack(w, i))
    && (w.command == 0 ==> w.left == w.orders)
    && (w.command != 0 ==> w.command == 1 && w.os == Waiting && w.orders == w.left + [Order(w.index, w.vector)])
  }

  lemma {:induction false} ApStepExact(w: World, i: U32)
    requires Exact(w) && i in w.aps
    ensures Exact(ApStep(w, i))
  {
    var t := ApStep(w, i);
    assert OnTrack(w, i);
    forall j | j in t.aps
      ensures j >= 1 && OnTrack(t, j)
    {
      assert OnTrack(w, j);
    }
  }

  lemma {:induction false} NextExact(w: World, act: Act)
    requires Exact(w)
    requires act.Name? && w.os == Idle ==> Quiet(w)
    ensures Exact(Next(w, act))
  {
    var t := Next(w, act);
    if act.Step? && act.i in w.aps {
      ApStepExact(w, act.i);
    } else {
      forall j | j in t.aps
        ensures j >= 1 && OnTrack(t, j)
      {
        assert OnTrack(w, j);
        assert act.Name? && w.os == Idle ==> !Busy(w, j);
      }
    }
  }

  lemma {:induction false} AfterExact(w: World, acts: seq<Act>)
    requires Exact(w) && QuietNaming(w, acts)
    ensures Exact(After(w, acts))
    decreases |acts|
  {
    if acts != [] {
      NextExact(w, acts[0]);
      AfterExact(Next(w, acts[0]), acts[1..]);
    }
  }

  /**
   * If no poll straddles a naming, the departures are exactly the commands in order, each by the processor
   * named and to its vector, up to a last command still waiting in the mailbox.
   */
  lemma {:induction false} QuietDeparturesAreCommands(vcpus: U32, acts: seq<Act>)
    requires QuietNaming(Start(vcpus), acts)
    ensures var w := After(Start(vcpus), acts);
            if w.command == 0 then w.left == w.orders else w.orders == w.left + [Order(w.index, w.vector)]
  {
    AllParked(vcpus);
    AfterExact(Start(vcpus), acts);
  }

  // ---------- polls taken whole ----------

  /** The steps of one whole poll: as many as it takes to be back at the start, or gone. */
  function PollActs(w: World, i: U32): seq<Act> {
    if i !in w.aps || w.command != 1 then [Step(i)]
    else if w.index != i then [Step(i), Step(i)]
    else if w.vector == 0 then [Step(i), Step(i), Step(i)]
    else [Step(i), Step(i), Step(i), Step(i)]
  }

  /** A schedule of whole polls and OS steps, as the steps it stands for. */
  function Whole(w: World, turns: seq<Act>): seq<Act>
    decreases |turns|
  {
    if turns == [] then []
    else
      var acts := if turns[0].Step? then PollActs(w, turns[0].i) else [turns[0]];
      acts + Whole(After(w, acts), turns[1..])
  }

  lemma {:induction false} PollEndsQuiet(w: World, i: U32)
    requires Quiet(w)
    ensures Quiet(After(w, PollActs(w, i)))
    ensures QuietNaming(w, PollActs(w, i))
  {
    var acts := PollActs(w, i);
    OneAct(w, Step(i));
    TwoActs(w, Step(i), Step(i));
    ThreeActs(w, Step(i), Step(i), Step(i));
    FourActs(w, Step(i), Step(i), Step(i), Step(i));
    StepsNameNobody(w, acts, i);
    if i in w.aps {
      assert !Busy(w, i);
    }
  }

  lemma {:induction false} StepsNameNobody(w: World, acts: seq<Act>, i: U32)
    requires forall act :: act in acts ==> act == Step(i)
    ensures QuietNaming(w, acts)
    decreases |acts|
  {
    if acts != [] {
      assert acts[0] in acts && forall act :: act in acts[1..] ==> act in acts;
      StepsNameNobody(Next(w, acts[0]), acts[1..], i);
    }
  }

  lemma {:induction false} QuietJoin(w: World, xs: seq<Act>, ys: seq<Act>)
    requires QuietNaming(w, xs) && QuietNaming(After(w, xs), ys)
    ensures QuietNaming(w, xs + ys)
    decreases |xs|
  {
    if xs == [] {
      assert xs + ys == ys;
    } else {
      assert (xs + ys)[0] == xs[0] && (xs + ys)[1..] == xs[1..] + ys;
      QuietJoin(Next(w, xs[0]), xs[1..], ys);
    }
  }

  lemma {:induction false} WholeIsQuiet(w: World, turns: seq<Act>)
    requires Quiet(w)
    ensures QuietNaming(w, Whole(w, turns))
    decreases |turns|
  {
    if turns != [] {
      var acts := if turns[0].Step? then PollActs(w, turns[0].i) else [turns[0]];
      if turns[0].Step? {
        PollEndsQuiet(w, turns[0].i);
      } else {
        OsStepQuiet(w, turns[0]);
      }
      WholeIsQuiet(After(w, acts), turns[1..]);
      QuietJoin(w, acts, Whole(After(w, acts), turns[1..]));
    }
  }

  lemma {:induction false} OsStepQuiet(w: World, act: Act)
    requires Quiet(w) && !act.Step?
    ensures Quiet(After(w, [act])) && QuietNaming(w, [act])
  {
    var t := Next(w, act);
    assert After(w, [act]) == After(t, []) == t;
    assert QuietNaming(t, [act][1..]);
    forall i | i in t.aps
      ensures !Busy(t, i)
    {
      assert !Busy(w, i);
    }
  }

  /** With polls taken whole, every command has exactly its own departure. */
  lemma {:induction false} WholePollsAreExact(vcpus: U32, turns: seq<Act>)
    ensures var w := After(Start(vcpus), Whole(Start(vcpus), turns));
            if w.command == 0 then w.left == w.orders else w.orders == w.left + [Order(w.index, w.vector)]
  {
    AllParked(vcpus);
    WholeIsQuiet(Start(vcpus), turns);
    QuietDeparturesAreCommands(vcpus, Whole(Start(vcpus), turns));
  }
}
