/** The wakeup mailbox: parked processors polling it one read or write at a time against an OS filling it. */
module Mailbox {
  import opened Layout

  /** Where a parked processor is in its poll; `Claim` holds the vector it read. */
  datatype Ap = PollCommand | PollIndex | PollVector | Claim(vector: U64) | Left

  /** The OS fills in the index, then the vector, then the command, and waits for zero. */
  datatype Os = Idle | Named | Aimed | Waiting

  datatype Order = Order(index: U32, vector: U64)

  /** The mailbox, everyone's place in the protocol, and what has happened so far. */
  datatype World = World(
    command: U32, index: U32, vector: U64,
    aps: map<U32, Ap>, os: Os,
    named: seq<U32>, stored: seq<U64>, orders: seq<Order>, left: seq<Order>)

  datatype Act = Step(i: U32) | Name(index: U32) | Aim(vector: U64) | Command | Look

  /** The measured mailbox is zero and every processor but the first is parked. */
  function Start(vcpus: U32): World {
    World(0, 0, 0, Parked(vcpus), Idle, [], [], [], [])
  }

  function Parked(vcpus: U32): map<U32, Ap> {
    if vcpus <= 1 then map[] else Parked(vcpus - 1)[vcpus - 1 := PollCommand]
  }

  lemma {:induction false} AllParked(vcpus: U32)
    ensures forall i :: i in Parked(vcpus) <==> 1 <= i < vcpus
    ensures forall i :: i in Parked(vcpus) ==> Parked(vcpus)[i] == PollCommand
  {
    if vcpus > 1 {
      AllParked(vcpus - 1);
    }
  }

  /** One instruction of processor `i`'s loop that touches the mailbox. */
  function ApStep(w: World, i: U32): World
    requires i in w.aps
  {
    match w.aps[i]
    case PollCommand => w.(aps := w.aps[i := if w.command == 1 then PollIndex else PollCommand])
    case PollIndex => w.(aps := w.aps[i := if w.index == i then PollVector else PollCommand])
    case PollVector => w.(aps := w.aps[i := if w.vector != 0 then Claim(w.vector) else PollCommand])
    case Claim(v) => w.(command := 0, aps := w.aps[i := Left], left := w.left + [Order(i, v)])
    case Left => w
  }

  /** One step of anybody's; a step nobody can take now changes nothing. */
  function Next(w: World, act: Act): World {
    match act
    case Step(i) => if i in w.aps then ApStep(w, i) else w
    case Name(k) => if w.os == Idle then w.(index := k, os := Named, named := w.named + [k]) else w
    case Aim(v) => if w.os == Named then w.(vector := v, os := Aimed, stored := w.stored + [v]) else w
    case Command =>
      if w.os == Aimed then w.(command := 1, os := Waiting, orders := w.orders + [Order(w.index, w.vector)]) else w
    case Look => if w.os == Waiting && w.command == 0 then w.(os := Idle) else w
  }

  function After(w: World, acts: seq<Act>): World
    decreases |acts|
  {
    if acts == [] then w else After(Next(w, acts[0]), acts[1..])
  }

  lemma {:induction false} AfterSplit(w: World, xs: seq<Act>, ys: seq<Act>)
    ensures After(w, xs + ys) == After(After(w, xs), ys)
    decreases |xs|
  {
    if xs == [] {
      assert xs + ys == ys;
    } else {
      assert (xs + ys)[0] == xs[0] && (xs + ys)[1..] == xs[1..] + ys;
      AfterSplit(Next(w, xs[0]), xs[1..], ys);
    }
  }

  lemma {:induction false} OneAct(w: World, a: Act)
    ensures After(w, [a]) == Next(w, a)
  {
    assert After(Next(w, a), []) == Next(w, a);
    assert [a][1..] == [];
  }

  lemma {:induction false} TwoActs(w: World, a: Act, b: Act)
    ensures After(w, [a, b]) == Next(Next(w, a), b)
  {
    OneAct(Next(w, a), b);
    assert [a, b][1..] == [b];
  }

  lemma {:induction false} ThreeActs(w: World, a: Act, b: Act, c: Act)
    ensures After(w, [a, b, c]) == Next(Next(Next(w, a), b), c)
  {
    TwoActs(Next(w, a), b, c);
    assert [a, b, c][1..] == [b, c];
  }

  lemma {:induction false} FourActs(w: World, a: Act, b: Act, c: Act, d: Act)
    ensures After(w, [a, b, c, d]) == Next(Next(Next(Next(w, a), b), c), d)
  {
    ThreeActs(Next(w, a), b, c, d);
    assert [a, b, c, d][1..] == [b, c, d];
  }
}
