/** Shared datatypes and a few facts about sequences. */
module Common {

  datatype Option<+T> = None | Some(value: T)

  ghost predicate NoDup<T>(q: seq<T>) {
    forall i, j | 0 <= i < j < |q| :: q[i] != q[j]
  }

  /** Python's list.remove: the first occurrence goes, if there is one. */
  function RemoveFirst<T(==)>(q: seq<T>, x: T): seq<T> {
    if q == [] then []
    else if q[0] == x then q[1..]
    else [q[0]] + RemoveFirst(q[1..], x)
  }

  lemma {:induction false} RemoveFirstSplits<T>(q: seq<T>, x: T) returns (k: nat)
    requires x in q
    ensures k < |q| && q[k] == x && x !in q[..k]
    ensures RemoveFirst(q, x) == q[..k] + q[k + 1..]
  {
    if q[0] == x {
      k := 0;
    } else {
      var k' := RemoveFirstSplits(q[1..], x);
      k := k' + 1;
      assert q[..k] == [q[0]] + q[1..][..k'];
      assert q[k + 1..] == q[1..][k' + 1..];
    }
  }

  function Pow10(w: nat): nat {
    if w == 0 then 1 else 10 * Pow10(w - 1)
  }

  lemma {:induction false} Pow10Positive(w: nat)
    ensures Pow10(w) > 0
  {
    if w > 0 {
      Pow10Positive(w - 1);
    }
  }

  // ---------------------------------------------------------------------------------------------
  // Choosing from a list in order
  // ---------------------------------------------------------------------------------------------

  /** `r` lists the elements of `q` at the increasing positions `index`. */
  ghost predicate Picks<T>(q: seq<T>, r: seq<T>, index: seq<nat>) {
    && |r| == |index|
    && (forall i, j | 0 <= i < j < |index| :: index[i] < index[j])
    && (forall j | 0 <= j < |index| :: index[j] < |q| && r[j] == q[index[j]])
  }

  function Shift(index: seq<nat>): (r: seq<nat>)
    ensures |r| == |index| && forall j | 0 <= j < |r| :: r[j] == index[j] + 1
  {
    if index == [] then [] else [index[0] + 1] + Shift(index[1..])
  }

  lemma ShiftHas(index: seq<nat>, i: nat)
    ensures i in Shift(index) <==> i > 0 && i - 1 in index
  {
    var r := Shift(index);
    if i > 0 && i - 1 in index {
      var j :| 0 <= j < |index| && index[j] == i - 1;
      assert r[j] == i;
    }
  }

  lemma ConsMembers(index: seq<nat>, x: nat)
    ensures forall i: nat :: i in [x] + index <==> i == x || i in index
  {
  }

  lemma TailMembers(index: seq<nat>)
    ensures forall i: nat :: i in Shift(index) <==> i > 0 && i - 1 in index
    ensures forall i: nat :: i in [0] + Shift(index) <==> i == 0 || i - 1 in index
  {
    hide Shift;
    forall i: nat ensures i in Shift(index) <==> i > 0 && i - 1 in index { ShiftHas(index, i); }
    ConsMembers(Shift(index), 0);
  }

  lemma PicksTail<T>(q: seq<T>, r: seq<T>, index: seq<nat>)
    requires q != [] && Picks(q[1..], r, index)
    ensures Picks(q, r, Shift(index)) && Picks(q, [q[0]] + r, [0] + Shift(index))
  {
  }

  lemma PicksInit<T>(q: seq<T>, r: seq<T>, index: seq<nat>)
    requires q != [] && Picks(q[..|q| - 1], r, index)
    ensures Picks(q, r, index) && Picks(q, r + [q[|q| - 1]], index + [|q| - 1])
  {
  }
}
