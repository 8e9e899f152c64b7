/**
 * The lock-free ring of native/selection-host/include/desktop_translate/native/core/bounded_spsc_queue.h. One
 * producer and one consumer take turns at any atomic load, slot access or atomic store, in any order.
 */
module SpscQueue {
  import opened Basics

  // ----- One step at a time -----

  /** Where the producer stands in TryPush: the next thing it does, with what it has in its registers. */
  datatype Producer<T> =
    | Resting
    | LoadingHead(value: T)
    | LoadingTail(value: T, head: nat)
    | Writing(value: T, head: nat)
    | StoringHead(value: T, head: nat)

  /** Where the consumer stands in TryPop. */
  datatype Consumer<T> =
    | Waiting
    | FetchingTail
    | FetchingHead(tail: nat)
    | Reading(tail: nat)
    | StoringTail(tail: nat, value: T)

  /** The shared memory, both threads, and the history: accepted pushes and popped values. */
  datatype State<T> = State(
    slots: seq<T>, head: nat, tail: nat, producer: Producer<T>, consumer: Consumer<T>, accepted: seq<T>, popped: seq<T>)

  datatype Action<T> = BeginPush(value: T) | Produce | BeginPop | Consume

  function Increment(index: nat, n: nat): nat
    requires n > 0
  {
    (index + 1) % n
  }

  predicate InBounds<T>(s: State<T>) {
    && |s.slots| >= 2
    && (s.producer.Writing? ==> s.producer.head < |s.slots|) && (s.consumer.Reading? ==> s.consumer.tail < |s.slots|)
  }

  /** The next step of TryPush. Finding the ring full ends it. */
  function Produced<T>(s: State<T>): State<T>
    requires InBounds(s)
  {
    match s.producer
    case Resting => s
    case LoadingHead(value) => s.(producer := LoadingTail(value, s.head))
    case LoadingTail(value, head) =>
      s.(producer := if Increment(head, |s.slots|) == s.tail then Resting else Writing(value, head))
    case Writing(value, head) => s.(slots := s.slots[head := value], producer := StoringHead(value, head))
    case StoringHead(value, head) =>
      s.(head := Increment(head, |s.slots|), producer := Resting, accepted := s.accepted + [value])
  }

  function Consumed<T>(s: State<T>): State<T>
    requires InBounds(s)
  {
    match s.consumer
    case Waiting => s
    case FetchingTail => s.(consumer := FetchingHead(s.tail))
    case FetchingHead(tail) => s.(consumer := if tail == s.head then Waiting else Reading(tail))
    case Reading(tail) => s.(consumer := StoringTail(tail, s.slots[tail]))
    case StoringTail(tail, value) =>
      s.(tail := Increment(tail, |s.slots|), consumer := Waiting, popped := s.popped + [value])
  }

  function Step<T>(s: State<T>, a: Action<T>): State<T>
    requires InBounds(s)
  {
    match a
    case BeginPush(value) => if s.producer.Resting? then s.(producer := LoadingHead(value)) else s
    case BeginPop => if s.consumer.Waiting? then s.(consumer := FetchingTail) else s
    case Produce => Produced(s)
    case Consume => Consumed(s)
  }

  ghost predicate Initial<T>(s: State<T>) {
    |s.slots| >= 2 && s == State(s.slots, 0, 0, Resting, Waiting, [], [])
  }

  ghost function Run<T>(s: State<T>, actions: seq<Action<T>>): State<T>
    requires Invariant(s)
    decreases |actions|
  {
    if actions == [] then s
    else
      StepKeeps(s, actions[0]);
      Run(Step(s, actions[0]), actions[1..])
  }

  // ----- The invariant -----

  /** What the queue holds. */
  function Stored<T>(s: State<T>): seq<T>
    requires |s.popped| <= |s.accepted|
  {
    s.accepted[|s.popped|..]
  }

  ghost predicate Counts<T>(s: State<T>) {
    var n, p, c := |s.slots|, |s.accepted|, |s.popped|;
    && n >= 2 && s.head == p % n && s.tail == c % n && c <= p <= c + n - 1
    && s.popped == s.accepted[..c]
    && forall k | c <= k < p :: s.slots[k % n] == s.accepted[k]
  }

  ghost predicate ProducerIsRight<T>(s: State<T>) {
    match s.producer
    case Resting => true
    case LoadingHead(_) => true
    case LoadingTail(_, head) => head == s.head
    case Writing(_, head) => head == s.head && |s.accepted| < |s.popped| + |s.slots| - 1
    case StoringHead(value, head) =>
      head == s.head < |s.slots| && |s.accepted| < |s.popped| + |s.slots| - 1 && s.slots[head] == value
  }

  ghost predicate ConsumerIsRight<T>(s: State<T>) {
    match s.consumer
    case Waiting => true
    case FetchingTail => true
    case FetchingHead(tail) => tail == s.tail
    case Reading(tail) => tail == s.tail && |s.popped| < |s.accepted|
    case StoringTail(tail, value) => tail == s.tail && |s.popped| < |s.accepted| && value == s.accepted[|s.popped|]
  }

  ghost predicate Invariant<T>(s: State<T>) {
    Counts(s) && ProducerIsRight(s) && ConsumerIsRight(s) && InBounds(s)
  }

  // ----- Indices around the ring -----

  lemma Multiple(d: int, n: int)
    requires n > 0
    ensures d >= 1 ==> d * n >= n
    ensures d <= -1 ==> d * n <= -n
  {
  }

  lemma Residue(x: nat, q: nat, r: nat, n: nat)
    requires n > 0 && r < n && x == q * n + r
    ensures x % n == r
  {
    var d := x / n - q;
    assert x == x / n * n + x % n;
    assert d * n == x / n * n - q * n;
    Multiple(d, n);
  }

  lemma NextIndex(k: nat, n: nat)
    requires n >= 2
    ensures (k + 1) % n == Increment(k % n, n)
  {
    var q, r := k / n, k % n;
    assert k == q * n + r;
    assert (q + 1) * n == q * n + n;
    hide *;
    if r + 1 < n {
      Residue(k + 1, q, r + 1, n);
      Residue(r + 1, 0, r + 1, n);
    } else {
      Residue(k + 1, q + 1, 0, n);
      Residue(r + 1, 1, 0, n);
    }
    IncrementIs(r, n);
  }

  lemma IncrementIs(r: nat, n: nat)
    requires n > 0
    ensures Increment(r, n) == (r + 1) % n
  {
  }

  /** Fewer than n apart, two positions share a slot only when they are equal. */
  lemma SameSlot(a: nat, b: nat, n: nat)
    requires n > 0 && a <= b < a + n
    ensures a % n == b % n <==> a == b
  {
    if a % n == b % n {
      var d := b / n - a / n;
      assert b - a == b / n * n - a / n * n;
      assert d * n == b / n * n - a / n * n;
      Multiple(d, n);
    }
  }

  // ----- Every step keeps the invariant -----

  lemma InitialHolds<T>(s: State<T>)
    requires Initial(s)
    ensures Invariant(s)
  {
  }

  /** The comparison in TryPush is exactly the question whether the queue is full. */
  lemma FullIs<T>(s: State<T>)
    requires Counts(s)
    ensures Increment(s.head, |s.slots|) == s.tail <==> |Stored(s)| == |s.slots| - 1
  {
    var n, p, c := |s.slots|, |s.accepted|, |s.popped|;
    NextIndex(p, n);
    if p + 1 < c + n {
      SameSlot(c, p + 1, n);
    } else {
      assert p + 1 == c + n;
      Around(c, n);
    }
  }

  lemma Around(c: nat, n: nat)
    requires n > 0
    ensures (c + n) % n == c % n
  {
    assert c == c / n * n + c % n;
    assert (c / n + 1) * n == c / n * n + n;
    Residue(c + n, c / n + 1, c % n, n);
  }

  lemma EmptyIs<T>(s: State<T>)
    requires Counts(s)
    ensures s.tail == s.head <==> Stored(s) == []
  {
    SameSlot(|s.popped|, |s.accepted|, |s.slots|);
  }

  lemma WriteKeeps<T>(s: State<T>, value: T)
    requires Counts(s) && |s.accepted| < |s.popped| + |s.slots| - 1
    ensures Counts(s.(slots := s.slots[s.head := value]))
  {
    var n, p := |s.slots|, |s.accepted|;
    forall k | |s.popped| <= k < p ensures k % n != s.head { SameSlot(k, p, n); }
  }

  lemma PublishKeeps<T>(s: State<T>, value: T)
    requires Counts(s) && |s.accepted| < |s.popped| + |s.slots| - 1 && s.slots[s.head] == value
    ensures Counts(s.(head := Increment(s.head, |s.slots|), accepted := s.accepted + [value]))
  {
    NextIndex(|s.accepted|, |s.slots|);
  }

  lemma TakeKeeps<T>(s: State<T>, value: T)
    requires Counts(s) && |s.popped| < |s.accepted| && value == s.accepted[|s.popped|]
    ensures Counts(s.(tail := Increment(s.tail, |s.slots|), popped := s.popped + [value]))
  {
    NextIndex(|s.popped|, |s.slots|);
    var c := |s.popped|;
    assert s.accepted[..c + 1] == s.accepted[..c] + [s.accepted[c]];
  }

  lemma ProduceKeeps<T>(s: State<T>)
    requires Invariant(s)
    ensures Invariant(Produced(s))
  {
    hide Increment;
    HeadInBounds(s);
    match s.producer {
      case LoadingTail(_, _) => FullIs(s);
      case Writing(value, head) => WriteKeeps(s, value);
      case StoringHead(value, head) => PublishKeeps(s, value);
      case _ =>
    }
  }

  lemma HeadInBounds<T>(s: State<T>)
    requires Counts(s)
    ensures s.head < |s.slots| && s.tail < |s.slots| && |s.popped| <= |s.accepted|
  {
  }

  lemma ConsumeKeeps<T>(s: State<T>)
    requires Invariant(s)
    ensures Invariant(Consumed(s))
  {
    HeadInBounds(s);
    match s.consumer {
      case FetchingHead(_) => EmptyIs(s);
      case StoringTail(tail, value) => TakeKeeps(s, value);
      case _ =>
    }
  }

  lemma StepKeeps<T>(s: State<T>, a: Action<T>)
    requires Invariant(s)
    ensures Invariant(Step(s, a))
  {
    match a {
      case Produce => ProduceKeeps(s);
      case Consume => ConsumeKeeps(s);
      case _ =>
    }
  }

  // ----- The ring is a bounded FIFO -----

  lemma {:induction false} RunKeeps<T>(s: State<T>, actions: seq<Action<T>>)
    requires Invariant(s)
    ensures Invariant(Run(s, actions)) && |Run(s, actions).slots| == |s.slots|
    decreases |actions|
  {
    hide Counts, ProducerIsRight, ConsumerIsRight;
    if actions != [] {
      StepKeeps(s, actions[0]);
      RunKeeps(Step(s, actions[0]), actions[1..]);
    }
  }

  /** In every interleaving, what was popped is a prefix of what was accepted, and at most N - 1 values are stored. */
  lemma PoppedIsAPrefix<T>(s: State<T>, actions: seq<Action<T>>)
    requires Initial(s)
    ensures Invariant(s)
    ensures var t := Run(s, actions);
            |t.slots| == |s.slots| && t.popped <= t.accepted && |Stored(t)| <= |s.slots| - 1
  {
    InitialHolds(s);
    RunKeeps(s, actions);
  }

  /** A step leaves the queue alone, appends the value being pushed while there is room, or takes the first value. */
  lemma StepRefinesFifo<T>(s: State<T>, a: Action<T>)
    requires Invariant(s)
    ensures var t := Step(s, a);
            && |t.popped| <= |t.accepted|
            && if a.Produce? && s.producer.StoringHead? then
                 Stored(t) == Stored(s) + [s.producer.value] && t.popped == s.popped && |Stored(s)| < |s.slots| - 1
               else if a.Consume? && s.consumer.StoringTail? then
                 Stored(s) == [s.consumer.value] + Stored(t) && t.popped == s.popped + [s.consumer.value]
                   && t.accepted == s.accepted
               else t.accepted == s.accepted && t.popped == s.popped
  {
  }

  /** The producer never writes the slot the consumer reads. */
  lemma NeverOneSlot<T>(s: State<T>, actions: seq<Action<T>>)
    requires Initial(s)
    ensures Invariant(s)
    ensures var t := Run(s, actions); t.producer.Writing? && t.consumer.Reading? ==> t.producer.head != t.consumer.tail
  {
    InitialHolds(s);
    RunKeeps(s, actions);
    var t := Run(s, actions);
    SlotsApart(t);
  }

  lemma SlotsApart<T>(s: State<T>)
    requires Invariant(s)
    ensures s.producer.Writing? && s.consumer.Reading? ==> s.producer.head != s.consumer.tail
  {
    if s.producer.Writing? && s.consumer.Reading? { SameSlot(|s.popped|, |s.accepted|, |s.slots|); }
  }

  /**
   * A push is refused exactly when the queue is full at its second load, a pop exactly when it is empty
   * at its second load.
   */
  lemma RefusalsAreTrue<T>(s: State<T>, actions: seq<Action<T>>)
    requires Initial(s)
    ensures Invariant(s)
    ensures var t := Run(s, actions);
            && InBounds(t) && |t.popped| <= |t.accepted|
            && (t.producer.LoadingTail? ==> (Produced(t).producer.Resting? <==> |Stored(t)| == |s.slots| - 1))
            && (t.consumer.FetchingHead? ==> (Consumed(t).consumer.Waiting? <==> Stored(t) == []))
  {
    InitialHolds(s);
    RunKeeps(s, actions);
    var t := Run(s, actions);
    FullIs(t);
    EmptyIs(t);
  }

  // ----- The two methods -----

  /**
   * The ring with its slots updated in place. Each step method is one atomic step of one thread; the thread's
   * registers are fields, so that the other thread may move between any two of them.
   */
  class BoundedSpscQueue<T(0)> {
    const slots: array<T>
    var head: nat
    var tail: nat
    var producer: Producer<T>
    var consumer: Consumer<T>
    ghost var accepted: seq<T>
    ghost var popped: seq<T>

    ghost function View(): State<T>
      reads this, slots
    {
      State(slots[..], head, tail, producer, consumer, accepted, popped)
    }

    constructor (n: nat)
      requires n >= 2
      ensures fresh(slots) && slots.Length == n && Initial(View())
    {
      slots := new T[n];
      head, tail, producer, consumer, accepted, popped := 0, 0, Resting, Waiting, [], [];
    }

    method ProducerStep()
      requires Invariant(View())
      modifies this, slots
      ensures View() == Produced(old(View())) && Invariant(View())
    {
      ProduceKeeps(View());
      hide Invariant, Counts;
      match producer {
        case Resting =>
        case LoadingHead(value) => producer := LoadingTail(value, head);
        case LoadingTail(value, loaded) =>
          producer := if (loaded + 1) % slots.Length == tail then Resting else Writing(value, loaded);
        case Writing(value, loaded) =>
          slots[loaded] := value;
          producer := StoringHead(value, loaded);
        case StoringHead(value, loaded) =>
          head := (loaded + 1) % slots.Length;
          producer := Resting;
          accepted := accepted + [value];
      }
    }

    method ConsumerStep()
      requires Invariant(View())
      modifies this
      ensures View() == Consumed(old(View())) && Invariant(View())
    {
      ConsumeKeeps(View());
      hide Invariant, Counts;
      match consumer {
        case Waiting =>
        case FetchingTail => consumer := FetchingHead(tail);
        case FetchingHead(loaded) => consumer := if loaded == head then Waiting else Reading(loaded);
        case Reading(loaded) => consumer := StoringTail(loaded, slots[loaded]);
        case StoringTail(loaded, value) =>
          tail := (loaded + 1) % slots.Length;
          consumer := Waiting;
          popped := popped + [value];
      }
    }

    /** TryPush with nothing in between: refused exactly when full, and otherwise the value goes last. */
    method TryPush(value: T) returns (ok: bool)
      requires Invariant(View()) && producer.Resting?
      modifies this, slots
      ensures Invariant(View()) && producer.Resting? && popped == old(popped) && consumer == old(consumer)
      ensures ok <==> |old(Stored(View()))| < slots.Length - 1
      ensures Stored(View()) == if ok then old(Stored(View())) + [value] else old(Stored(View()))
    {
      FullIs(View());
      hide Counts, Increment;
      producer := LoadingHead(value);
      ProducerStep();
      ProducerStep();
      if producer.Resting? { return false; }
      ProducerStep();
      ProducerStep();
      return true;
    }

    /** TryPop with nothing in between: refused exactly when empty, and otherwise the first value. */
    method TryPop() returns (value: Option<T>)
      requires Invariant(View()) && consumer.Waiting?
      modifies this
      ensures Invariant(View()) && consumer.Waiting? && accepted == old(accepted) && producer == old(producer)
      ensures value.None? <==> old(Stored(View())) == []
      ensures value.Some? ==> old(Stored(View())) == [value.value] + Stored(View())
      ensures value.None? ==> Stored(View()) == []
    {
      EmptyIs(View());
      hide Counts, Increment;
      consumer := FetchingTail;
      ConsumerStep();
      ConsumerStep();
      if consumer.Waiting? { return None; }
      ConsumerStep();
      value := Some(consumer.value);
      ConsumerStep();
    }
  }
}
