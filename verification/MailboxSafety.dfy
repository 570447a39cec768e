/** What every interleaving of polls and commands keeps. */
module MailboxSafety {
  import opened Layout
  import opened Collections
  import opened Mailbox

  /** What a processor's place in its poll says about what the OS has done. */
  ghost predicate ApSafe(w: World, i: U32)
    requires i in w.aps
  {
    && (w.aps[i] != PollCommand ==> w.orders != [])
    && (w.aps[i].PollVector? || w.aps[i].Claim? || w.aps[i].Left? ==> i in w.named)
    && (w.aps[i].Claim? ==> w.aps[i].vector != 0 && w.aps[i].vector in w.stored)
  }

  ghost predicate Departed(w: World, k: nat)
    requires k < |w.left|
  {
    var o := w.left[k];
    && o.index in w.aps && w.aps[o.index] == Left
    && o.vector != 0 && o.vector in w.stored
    && forall j :: 0 <= j < k ==> w.left[j].index != o.index
  }

  ghost predicate Safe(w: World) {
    && (w.command != 0 ==> w.command == 1 && w.orders != [])
    && (w.vector != 0 ==> w.vector in w.stored)
    && (w.index != 0 ==> w.index in w.named)
    && |w.named| == |w.orders| + (if w.os == Named || w.os == Aimed then 1 else 0)
    && (forall i :: i in w.aps ==> i >= 1 && ApSafe(w, i))
    && (forall k :: 0 <= k < |w.left| ==> Departed(w, k))
  }

  lemma {:induction false} ApStepDeparted(w: World, i: U32, k: nat)
    requires Safe(w) && i in w.aps && k < |ApStep(w, i).left|
    ensures Departed(ApStep(w, i), k)
  {
    if k < |w.left| {
      assert Departed(w, k);
    } else {
      assert ApSafe(w, i);
      forall j | 0 <= j < k
        ensures w.left[j].index != i
      {
        assert Departed(w, j);
      }
    }
  }

  lemma {:induction false} ApStepSafe(w: World, i: U32)
    requires Safe(w) && i in w.aps
    ensures Safe(ApStep(w, i))
  {
    var t := ApStep(w, i);
    assert ApSafe(w, i);
    forall j | j in t.aps
      ensures j >= 1 && ApSafe(t, j)
    {
      assert ApSafe(w, j);
    }
    forall k | 0 <= k < |t.left|
      ensures Departed(t, k)
    {
      ApStepDeparted(w, i, k);
    }
  }

  lemma {:induction false} NextSafe(w: World, act: Act)
    requires Safe(w)
    ensures Safe(Next(w, act))
  {
    var t := Next(w, act);
    if act.Step? && act.i in w.aps {
      ApStepSafe(w, act.i);
    } else {
      forall j | j in t.aps
        ensures j >= 1 && ApSafe(t, j)
      {
        assert ApSafe(w, j);
      }
      forall k | 0 <= k < |t.left|
        ensures Departed(t, k)
      {
        assert Departed(w, k);
      }
    }
  }

  lemma {:induction false} AfterSafe(w: World, acts: seq<Act>)
    requires Safe(w)
    ensures Safe(After(w, acts))
    decreases |acts|
  {
    if acts != [] {
      NextSafe(w, acts[0]);
      AfterSafe(Next(w, acts[0]), acts[1..]);
    }
  }

  lemma {:induction false} LeaverWasCalled(w: World, k: nat)
    requires Safe(w) && k < |w.left|
    ensures w.orders != [] && w.left[k].index in w.named && w.left[k].vector in w.stored
    ensures forall j :: 0 <= j < k ==> w.left[j].index != w.left[k].index
  {
    assert Departed(w, k) && ApSafe(w, w.left[k].index);
  }

  /**
   * Over every interleaving: nobody leaves before the first command, nobody leaves twice, and whoever
   * leaves was named by the OS and goes to a vector the OS stored.
   */
  lemma {:induction false} NobodyLeavesUncalled(vcpus: U32, acts: seq<Act>)
    ensures var w := After(Start(vcpus), acts);
            && (w.orders == [] ==> w.left == [])
            && (forall k :: 0 <= k < |w.left| ==> w.left[k].index in w.named && w.left[k].vector in w.stored)
            && (forall j, k :: 0 <= j < k < |w.left| ==> w.left[j].index != w.left[k].index)
  {
    AllParked(vcpus);
    AfterSafe(Start(vcpus), acts);
    var w := After(Start(vcpus), acts);
    if w.left != [] {
      LeaverWasCalled(w, 0);
    }
    forall k | 0 <= k < |w.left|
      ensures w.left[k].index in w.named && w.left[k].vector in w.stored
      ensures forall j :: 0 <= j < k ==> w.left[j].index != w.left[k].index
    {
      LeaverWasCalled(w, k);
    }
  }

  lemma {:induction false} StoredAreAimed(w: World, acts: seq<Act>, v: U64)
    requires forall x :: x in w.stored ==> x == v
    requires forall act :: act in acts && act.Aim? ==> act.vector == v
    ensures forall x :: x in After(w, acts).stored ==> x == v
    decreases |acts|
  {
    if acts != [] {
      assert acts[0] in acts && forall act :: act in acts[1..] ==> act in acts;
      StoredAreAimed(Next(w, acts[0]), acts[1..], v);
    }
  }

  /** An OS with one trampoline sends everyone who leaves to it. */
  lemma {:induction false} OneVector(vcpus: U32, acts: seq<Act>, v: U64)
    requires forall act :: act in acts && act.Aim? ==> act.vector == v
    ensures forall o :: o in After(Start(vcpus), acts).left ==> o.vector == v
  {
    StoredAreAimed(Start(vcpus), acts, v);
    NobodyLeavesUncalled(vcpus, acts);
  }

  // ---------- departures and commands ----------

  function Leavers(left: seq<Order>): seq<U32> {
    seq(|left|, k requires 0 <= k < |left| => left[k].index)
  }

  /** Over every interleaving, departures outnumber commands by at most one: the name not yet commanded. */
  lemma {:induction false} DeparturesBounded(vcpus: U32, acts: seq<Act>)
    ensures var w := After(Start(vcpus), acts);
            |w.left| <= |w.orders| + (if w.os == Named || w.os == Aimed then 1 else 0)
  {
    var w := After(Start(vcpus), acts);
    AllParked(vcpus);
    AfterSafe(Start(vcpus), acts);
    NobodyLeavesUncalled(vcpus, acts);
    DistinctFits(Leavers(w.left), w.named);
  }

  /** The OS names processor 1 and commands it; processor 2 sees the command as well. */
  lemma {:induction false} BothSeeTheCommand(v: U64)
    ensures After(Start(3), [Name(1), Aim(v), Command, Step(2)]) ==
            World(1, 1, v, map[1 := PollCommand, 2 := PollIndex], Waiting, [1], [v], [Order(1, v)], [])
  {
    var w := Start(3);
    AllParked(3);
    FourActs(w, Name(1), Aim(v), Command, Step(2));
    assert w.aps == map[1 := PollCommand, 2 := PollCommand];
  }

  /** Processor 1 leaves. */
  lemma {:induction false} FirstLeaves(v: U64)
    requires v != 0
    ensures After(World(1, 1, v, map[1 := PollCommand, 2 := PollIndex], Waiting, [1], [v], [Order(1, v)], []),
                  [Step(1), Step(1), Step(1), Step(1)]) ==
            World(0, 1, v, map[1 := Left, 2 := PollIndex], Waiting, [1], [v], [Order(1, v)], [Order(1, v)])
  {
    FourActs(World(1, 1, v, map[1 := PollCommand, 2 := PollIndex], Waiting, [1], [v], [Order(1, v)], []),
             Step(1), Step(1), Step(1), Step(1));
  }

  /** The OS names processor 2, which reads its name and the old vector. */
  lemma {:induction false} SecondReadsItsName(v: U64)
    requires v != 0
    ensures After(World(0, 1, v, map[1 := Left, 2 := PollIndex], Waiting, [1], [v], [Order(1, v)], [Order(1, v)]),
                  [Look, Name(2), Step(2), Step(2)]) ==
            World(0, 2, v, map[1 := Left, 2 := Claim(v)], Named, [1, 2], [v], [Order(1, v)], [Order(1, v)])
  {
    FourActs(World(0, 1, v, map[1 := Left, 2 := PollIndex], Waiting, [1], [v], [Order(1, v)], [Order(1, v)]),
             Look, Name(2), Step(2), Step(2));
  }

  /**
   * And one more it can be: processor 2 saw the command meant for processor 1, and reads its own name
   * before its command is given. It leaves on that reading, to the vector stored for processor 1.
   */
  lemma {:induction false} DeparturesCanExceedCommands(v: U64) returns (acts: seq<Act>)
    requires v != 0
    ensures var w := After(Start(3), acts);
            w.orders == [Order(1, v)] && w.left == [Order(1, v), Order(2, v)]
  {
    var a, b := [Name(1), Aim(v), Command, Step(2)], [Step(1), Step(1), Step(1), Step(1)];
    var c := [Look, Name(2), Step(2), Step(2)];
    BothSeeTheCommand(v);
    FirstLeaves(v);
    SecondReadsItsName(v);
    AfterSplit(Start(3), a, b);
    AfterSplit(Start(3), a + b, c);
    AfterSplit(Start(3), a + b + c, [Step(2)]);
    acts := a + b + c + [Step(2)];
    var w := After(Start(3), a + b + c);
    OneAct(w, Step(2));
    assert w == World(0, 2, v, map[1 := Left, 2 := Claim(v)], Named, [1, 2], [v], [Order(1, v)], [Order(1, v)]);
    assert ApStep(w, 2).left == [Order(1, v)] + [Order(2, v)];
  }
}
