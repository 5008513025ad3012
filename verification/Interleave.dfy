/** What a reader's staging area emits: the order in which a batch of frames leaves it. */
module Interleave {
  import opened Bytes
  import opened GopRing

  const U32_MAX := 0xffff_ffff

  function Wrap(n: nat): nat {
    n % U32
  }

  /** The first staged frame of a track whose timestamp is the least below 2^32-1, or -1. */
  function EarliestOf(batch: seq<Slot>, t: Track): (i: int)
    ensures -1 <= i < |batch|
    ensures i >= 0 ==> batch[i].track == t && batch[i].dts < U32_MAX
    ensures forall j :: 0 <= j < |batch| && batch[j].track == t && batch[j].dts < U32_MAX ==>
              i >= 0 && (batch[i].dts < batch[j].dts || (batch[i].dts == batch[j].dts && i <= j))
  {
    if batch == [] then -1
    else
      var last := |batch| - 1;
      var i := EarliestOf(batch[..last], t);
      if batch[last].track == t && batch[last].dts < (if i < 0 then U32_MAX else batch[i].dts) then last else i
  }

  lemma EarliestStep(batch: seq<Slot>, x: Slot, t: Track)
    ensures var i := EarliestOf(batch, t);
            EarliestOf(batch + [x], t) ==
              if x.track == t && x.dts < (if i < 0 then U32_MAX else batch[i].dts) then |batch| else i
  {
    assert (batch + [x])[..|batch|] == batch;
  }

  /** The choice between the two earliest frames, with the sums as 32-bit words. */
  function Pick(batch: seq<Slot>, skew: nat): (i: int)
    ensures -1 <= i < |batch|
  {
    var v, a := EarliestOf(batch, Video), EarliestOf(batch, Audio);
    if v >= 0 && a >= 0 then
      if Wrap(batch[a].dts + skew) < batch[v].dts then a
      else if Wrap(batch[v].dts + skew) < batch[a].dts then v
      else if batch[a].dts <= batch[v].dts then a
      else v
    else if a >= 0 then a
    else v
  }

  function Without<T>(s: seq<T>, i: nat): (r: seq<T>)
    requires i < |s|
    ensures |r| == |s| - 1
  {
    s[..i] + s[i + 1..]
  }

  /** Everything that comes out of a batch until the staging area is empty or is thrown away. */
  function Drain(batch: seq<Slot>, skew: nat): seq<Slot>
    decreases |batch|
  {
    var i := Pick(batch, skew);
    if i < 0 then [] else [batch[i]] + Drain(Without(batch, i), skew)
  }

  lemma DrainUnfolds(batch: seq<Slot>, skew: nat, sofar: seq<Slot>)
    ensures var i := Pick(batch, skew);
            if i < 0 then Drain(batch, skew) == []
            else sofar + Drain(batch, skew) == (sofar + [batch[i]]) + Drain(Without(batch, i), skew)
  {
  }

  /** Earlier timestamp first; on a tie audio before video. */
  predicate Before(x: Slot, y: Slot) {
    x.dts < y.dts || (x.dts == y.dts && (x.track == Audio || y.track == Video))
  }

  predicate Timed(batch: seq<Slot>) {
    forall i :: 0 <= i < |batch| ==> batch[i].dts < U32_MAX
  }

  predicate NoWrap(batch: seq<Slot>, skew: nat) {
    forall i :: 0 <= i < |batch| ==> batch[i].dts + skew < U32
  }

  /** The staged frames of one track with one timestamp, in the order in which they were staged. */
  function Select(batch: seq<Slot>, t: Track, dts: nat): seq<Slot> {
    if batch == [] then []
    else (if batch[0].track == t && batch[0].dts == dts then [batch[0]] else []) + Select(batch[1..], t, dts)
  }

  /** Without wrap-around the skew never changes the choice: it is the least frame by timestamp, audio
      first, then staging order. */
  lemma PickIsLeast(batch: seq<Slot>, skew: nat)
    requires batch != [] && Timed(batch) && NoWrap(batch, skew)
    ensures var i := Pick(batch, skew);
            i >= 0 && (forall j :: 0 <= j < |batch| ==> Before(batch[i], batch[j]))
            && (forall j :: 0 <= j < i ==> batch[j].track != batch[i].track || batch[j].dts != batch[i].dts)
  {
    var v, a := EarliestOf(batch, Video), EarliestOf(batch, Audio);
    assert batch[0].track == Video || batch[0].track == Audio;
    if v >= 0 { assert Wrap(batch[v].dts + skew) == batch[v].dts + skew; }
    if a >= 0 { assert Wrap(batch[a].dts + skew) == batch[a].dts + skew; }
  }

  /** A sum has wrapped past 2^32 and makes the later of the two earliest frames look overdue. */
  predicate Misled(batch: seq<Slot>, skew: nat) {
    var v, a := EarliestOf(batch, Video), EarliestOf(batch, Audio);
    && v >= 0 && a >= 0
    && var x, y := (batch[v].dts + skew) % 0x1_0000_0000, (batch[a].dts + skew) % 0x1_0000_0000;
       if batch[v].dts < batch[a].dts then y < batch[v].dts else y >= batch[v].dts && x < batch[a].dts
  }

  /** Exactly then the choice is not the least frame. */
  lemma PickIsLeastIff(batch: seq<Slot>, skew: nat)
    requires batch != [] && Timed(batch)
    ensures Pick(batch, skew) >= 0
    ensures (forall j :: 0 <= j < |batch| ==> Before(batch[Pick(batch, skew)], batch[j])) <==> !Misled(batch, skew)
  {
    var i, v, a := Pick(batch, skew), EarliestOf(batch, Video), EarliestOf(batch, Audio);
    assert batch[0].track == Video || batch[0].track == Audio;
    if Misled(batch, skew) {
      var other := if i == a then v else a;
      assert !Before(batch[i], batch[other]);
    }
  }

  lemma {:induction false} SelectConcat(x: seq<Slot>, y: seq<Slot>, t: Track, dts: nat)
    ensures Select(x + y, t, dts) == Select(x, t, dts) + Select(y, t, dts)
    decreases |x|
  {
    if x == [] {
      assert x + y == y;
    } else {
      assert (x + y)[1..] == x[1..] + y;
      SelectConcat(x[1..], y, t, dts);
    }
  }

  lemma {:induction false} SelectNone(x: seq<Slot>, t: Track, dts: nat)
    requires forall j :: 0 <= j < |x| ==> x[j].track != t || x[j].dts != dts
    ensures Select(x, t, dts) == []
    decreases |x|
  {
    if x != [] { SelectNone(x[1..], t, dts); }
  }

  /** Taking out the first frame of its kind takes the head off that kind's selection and leaves every
      other selection alone. */
  lemma SelectOne(x: Slot, t: Track, dts: nat)
    ensures Select([x], t, dts) == if x.track == t && x.dts == dts then [x] else []
  {
    assert [x][1..] == [];
  }

  lemma SelectWithout(batch: seq<Slot>, i: nat, t: Track, dts: nat)
    requires i < |batch|
    requires forall j :: 0 <= j < i ==> batch[j].track != batch[i].track || batch[j].dts != batch[i].dts
    ensures Select(batch, t, dts) == Select([batch[i]], t, dts) + Select(Without(batch, i), t, dts)
  {
    var x, e, y := batch[..i], batch[i], batch[i + 1..];
    SelectOne(e, t, dts);
    if e.track == t && e.dts == dts { SelectNone(x, t, dts); }
    Joined(Select(x, t, dts), Select([e], t, dts), Select(y, t, dts));
    hide Select;
    assert batch == x + ([e] + y);
    SelectConcat(x, [e] + y, t, dts);
    SelectConcat([e], y, t, dts);
    SelectConcat(x, y, t, dts);
  }

  lemma Joined(x: seq<Slot>, e: seq<Slot>, y: seq<Slot>)
    requires x == [] || e == []
    ensures x + (e + y) == e + (x + y)
  {
  }

  lemma WithoutParts(batch: seq<Slot>, i: nat)
    requires i < |batch|
    ensures multiset(batch) == multiset{batch[i]} + multiset(Without(batch, i))
    ensures forall x :: x in Without(batch, i) ==> x in batch
  {
    assert batch == batch[..i] + [batch[i]] + batch[i + 1..];
  }

  lemma PickTimed(batch: seq<Slot>, skew: nat)
    ensures var i := Pick(batch, skew); i >= 0 ==> batch[i].dts < U32_MAX
    ensures Pick(batch, skew) < 0 ==> forall j :: 0 <= j < |batch| ==> batch[j].dts >= U32_MAX
  {
    if Pick(batch, skew) < 0 {
      forall j | 0 <= j < |batch| ensures batch[j].dts >= U32_MAX { assert EarliestOf(batch, batch[j].track) < 0; }
    }
  }

  /** A staged frame leaves the staging area exactly if its timestamp is not 2^32-1: frames with that
      timestamp are thrown away once nothing else is staged. */
  lemma {:induction false} DrainKeepsTimed(batch: seq<Slot>, skew: nat, x: Slot)
    ensures multiset(Drain(batch, skew))[x] == if x.dts < U32_MAX then multiset(batch)[x] else 0
    decreases |batch|
  {
    var i := Pick(batch, skew);
    PickTimed(batch, skew);
    if i >= 0 {
      DrainKeepsTimed(Without(batch, i), skew, x);
      WithoutParts(batch, i);
    }
  }

  /** The batch comes out as a permutation of itself exactly if no frame in it has timestamp 2^32-1. */
  lemma DrainIsPermutationIff(batch: seq<Slot>, skew: nat)
    ensures multiset(Drain(batch, skew)) == multiset(batch) <==> Timed(batch)
  {
    forall x: Slot ensures multiset(Drain(batch, skew))[x] == if x.dts < U32_MAX then multiset(batch)[x] else 0 {
      DrainKeepsTimed(batch, skew, x);
    }
    if i :| 0 <= i < |batch| && batch[i].dts >= U32_MAX {
      assert batch[i] in multiset(batch) && batch[i] !in multiset(Drain(batch, skew));
    }
  }

  /** No choice of the whole drain is misled. */
  predicate NeverMisled(batch: seq<Slot>, skew: nat)
    decreases |batch|
  {
    var i := Pick(batch, skew);
    i < 0 || (!Misled(batch, skew) && NeverMisled(Without(batch, i), skew))
  }

  predicate Ordered(d: seq<Slot>) {
    forall i, j :: 0 <= i < j < |d| ==> Before(d[i], d[j])
  }

  /** What comes out behind the first frame is what was staged besides it. */
  lemma DrainOfRest(batch: seq<Slot>, skew: nat, i: nat)
    requires Timed(batch) && i < |batch|
    ensures Timed(Without(batch, i)) && forall x :: x in Drain(Without(batch, i), skew) <==> x in Without(batch, i)
  {
    WithoutParts(batch, i);
    DrainIsPermutationIff(Without(batch, i), skew);
    hide Drain, Without;
    SameMembers(Drain(Without(batch, i), skew), Without(batch, i));
  }

  lemma SameMembers(s: seq<Slot>, t: seq<Slot>)
    requires multiset(s) == multiset(t)
    ensures forall x :: x in s <==> x in t
  {
    forall x ensures x in s <==> x in t {
      assert x in s <==> x in multiset(s);
      assert x in t <==> x in multiset(t);
    }
  }

  lemma OrderedFrom(x: Slot, d: seq<Slot>)
    ensures Ordered([x] + d) <==> Ordered(d) && forall y :: y in d ==> Before(x, y)
  {
    var e := [x] + d;
    assert forall j :: 0 <= j < |d| ==> e[j + 1] == d[j];
    if Ordered(e) {
      forall y | y in d ensures Before(x, y) {
        var j :| 0 <= j < |d| && d[j] == y;
        assert e[0] == x && e[j + 1] == y;
      }
      forall i, j | 0 <= i < j < |d| ensures Before(d[i], d[j]) {
        assert e[i + 1] == d[i] && e[j + 1] == d[j];
      }
    }
  }

  /** A choice is not misled exactly if it comes before all that is left. */
  lemma BeforeTheRest(batch: seq<Slot>, skew: nat, i: nat)
    requires Timed(batch) && batch != [] && i == Pick(batch, skew)
    ensures (forall y :: y in Without(batch, i) ==> Before(batch[i], y)) <==> !Misled(batch, skew)
  {
    PickIsLeastIff(batch, skew);
    var rest := Without(batch, i);
    WithoutParts(batch, i);
    forall j | 0 <= j < |batch| && j != i ensures batch[j] in rest {
      assert batch[j] == if j < i then rest[j] else rest[j - 1];
    }
  }

  /** The batch comes out ordered exactly if no choice is misled. */
  lemma {:induction false} DrainIsOrderedIff(batch: seq<Slot>, skew: nat)
    requires Timed(batch)
    ensures Ordered(Drain(batch, skew)) <==> NeverMisled(batch, skew)
    decreases |batch|
  {
    if batch != [] {
      PickIsLeastIff(batch, skew);
      var i := Pick(batch, skew);
      hide Misled, Pick, Before, Ordered;
      DrainOfRest(batch, skew, i);
      BeforeTheRest(batch, skew, i);
      OrderedFrom(batch[i], Drain(Without(batch, i), skew));
      DrainIsOrderedIff(Without(batch, i), skew);
    }
  }

  /** In particular if no sum wraps. */
  lemma {:induction false} NoWrapNeverMisled(batch: seq<Slot>, skew: nat)
    requires Timed(batch) && NoWrap(batch, skew)
    ensures NeverMisled(batch, skew)
    decreases |batch|
  {
    if batch != [] {
      PickIsLeast(batch, skew);
      PickIsLeastIff(batch, skew);
      var i := Pick(batch, skew);
      WithoutParts(batch, i);
      NoWrapNeverMisled(Without(batch, i), skew);
    }
  }

  /** Misled or not, the choice is the first frame of its kind. */
  lemma PickIsFirst(batch: seq<Slot>, skew: nat)
    ensures var i := Pick(batch, skew);
            i >= 0 ==> forall j :: 0 <= j < i ==> batch[j].track != batch[i].track || batch[j].dts != batch[i].dts
  {
  }

  lemma {:induction false} DrainIsStable(batch: seq<Slot>, skew: nat, t: Track, dts: nat)
    requires Timed(batch)
    ensures Select(Drain(batch, skew), t, dts) == Select(batch, t, dts)
    decreases |batch|
  {
    if batch != [] {
      PickIsLeastIff(batch, skew);
      PickIsFirst(batch, skew);
      var i := Pick(batch, skew);
      WithoutParts(batch, i);
      DrainIsStable(Without(batch, i), skew, t, dts);
      hide Pick, Select;
      SelectConcat([batch[i]], Drain(Without(batch, i), skew), t, dts);
      SelectWithout(batch, i, t, dts);
    }
  }

  /** Draining a batch is a stable sort of it: a permutation in which frames of one track with one timestamp
      keep their staging order, and ordered by timestamp, with audio before video on a tie, exactly if no
      choice is misled; in particular if no sum wraps. */
  lemma DrainIsStableSort(batch: seq<Slot>, skew: nat)
    requires Timed(batch)
    ensures multiset(Drain(batch, skew)) == multiset(batch)
    ensures forall t: Track, dts: nat :: Select(Drain(batch, skew), t, dts) == Select(batch, t, dts)
    ensures Ordered(Drain(batch, skew)) <==> NeverMisled(batch, skew)
    ensures NoWrap(batch, skew) ==> Ordered(Drain(batch, skew))
  {
    DrainIsPermutationIff(batch, skew);
    DrainIsOrderedIff(batch, skew);
    if NoWrap(batch, skew) { NoWrapNeverMisled(batch, skew); }
    forall t: Track, dts: nat ensures Select(Drain(batch, skew), t, dts) == Select(batch, t, dts) {
      DrainIsStable(batch, skew, t, dts);
    }
  }
}
