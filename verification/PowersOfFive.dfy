/** `pow5mult` of `dtoa.c`, with the powers that it keeps. */
module PowersOfFive {
  import opened BigWords
  import opened BigIntegers

  function Five(k: nat): (p: nat)
    ensures p > 0
  {
    if k == 0 then 1 else 5 * Five(k - 1)
  }

  lemma {:induction false} FivePlus(j: nat, k: nat)
    ensures Five(j + k) == Five(j) * Five(k)
  {
    if j > 0 {
      FivePlus(j - 1, k);
      Associate(5, Five(j - 1), Five(k));
    }
  }

  lemma SmallFives()
    ensures Five(0) == 1 && Five(1) == 5 && Five(2) == 25 && Five(3) == 125 && Five(4) == 625
  {
    assert Five(1) == 5 * Five(0);
    assert Five(2) == 5 * Five(1);
    assert Five(3) == 5 * Five(2);
    assert Five(4) == 5 * Five(3);
  }

  /** What node `i` of the list holds: 5 to the power of 4 times 2 to the `i`. */
  function NodePower(i: nat): (p: nat)
    ensures p > 0
  {
    Five(4 * TwoTo(i))
  }

  lemma Squares(i: nat)
    ensures NodePower(0) == 625 && NodePower(i + 1) == NodePower(i) * NodePower(i)
  {
    SmallFives();
    FivePlus(4 * TwoTo(i), 4 * TwoTo(i));
  }

  /** What the loop has still to multiply by, with `k` bits of the exponent left at node `i`. */
  function Left(i: nat, k: nat): (p: nat)
    ensures p > 0
  {
    Five(4 * TwoTo(i) * k)
  }

  lemma LeftFirst(k: nat)
    ensures Five(k) == Five(k % 4) * Left(0, k / 4)
  {
    FivePlus(k % 4, 4 * (k / 4));
  }

  lemma LeftNext(i: nat, k: nat)
    ensures Left(i, k) == (if k % 2 == 1 then NodePower(i) else 1) * Left(i + 1, k / 2)
  {
    var e, h := 4 * TwoTo(i), k / 2;
    assert 4 * TwoTo(i + 1) == 2 * e;
    Associate(2, e, h);
    Associate(e, 2, h);
    assert e * (2 * h) == 2 * e * h;
    if k % 2 == 1 {
      assert k == 1 + 2 * h;
      Times(e, 1, 2 * h);
      Commute(e, k);
      Commute(e, 2 * h);
      FivePlus(e, 2 * e * h);
    }
  }

  lemma LeftNone(i: nat)
    ensures Left(i, 0) == 1
  {
    assert 4 * TwoTo(i) * 0 == 0;
  }

  class Powers {
    var p5s: seq<Bigint>

    ghost predicate Node(i: nat)
      requires i < |p5s|
      reads this, p5s[i], p5s[i].x
    {
      p5s[i].Valid() && Value(p5s[i].Content()) == NodePower(i)
    }

    ghost predicate Valid()
      reads this, p5s, set n | n in p5s :: n.x
    {
      forall i :: 0 <= i < |p5s| ==> Node(i)
    }

    ghost predicate Apart(b: Bigint)
      reads this
    {
      forall i :: 0 <= i < |p5s| ==> p5s[i] != b && p5s[i].x != b.x
    }

    constructor ()
      ensures Valid() && p5s == []
    {
      p5s := [];
    }

    /** Make node `i` when the list ends before it. */
    method Reach(i: nat)
      requires Valid() && i <= |p5s|
      modifies this
      ensures Valid() && i < |p5s| && old(p5s) <= p5s
      ensures forall j :: |old(p5s)| <= j < |p5s| ==> fresh(p5s[j]) && fresh(p5s[j].x)
    {
      if i == |p5s| {
        var c;
        if i == 0 {
          c := new Bigint(1);
          c.x[0] := 625;
          c.wds := 1;
          assert c.Content() == [625] && [625][..0] == [];
          Squares(0);
        } else {
          assert Node(i - 1);
          c := Mult(p5s[i - 1], p5s[i - 1]);
          Squares(i - 1);
        }
        p5s := p5s + [c];
        forall j | 0 <= j < |p5s| ensures Node(j) {
          if j < i { assert old(Node(j)); }
        }
      }
    }

    /** The loop of `pow5mult`. */
    method MultiplyBits(b0: Bigint, k0: nat) returns (b: Bigint)
      requires Valid() && b0.Valid() && k0 > 0
      modifies this
      ensures Valid() && b.Valid() && old(p5s) <= p5s
      ensures Value(b.Content()) == Value(b0.Content()) * Left(0, k0)
    {
      var i: nat, k := 0, k0;
      b := b0;
      ghost var v := Value(b.Content()) * Left(0, k0);
      Reach(0);
      while k > 0
        invariant i < |p5s| && Valid() && b.Valid() && old(p5s) <= p5s
        invariant Value(b.Content()) * Left(i, k) == v
        decreases k
      {
        LeftNext(i, k);
        ghost var w := Value(b.Content());
        if k % 2 == 1 {
          assert Node(i);
          b := Mult(b, p5s[i]);
          Associate(w, NodePower(i), Left(i + 1, k / 2));
        }
        k := k / 2;
        if k > 0 { Reach(i + 1); i := i + 1; } else { LeftNone(i + 1); LeftNone(i); }
      }
      LeftNone(i);
    }

    /** `pow5mult`. */
    method Pow5Mult(b0: Bigint, k: nat) returns (b: Bigint)
      requires Valid() && b0.Valid() && b0.wds > 0 && Apart(b0)
      modifies this, b0, b0.x
      ensures Valid() && b.Valid() && old(p5s) <= p5s
      ensures Value(b.Content()) == old(Value(b0.Content())) * Five(k)
    {
      b := b0;
      ghost var v := Value(b.Content());
      var p05 := [5, 25, 125];
      var i := k % 4;
      SmallFives();
      LeftFirst(k);
      Associate(v, Five(i), Left(0, k / 4));
      if i > 0 {
        b := MultAdd(b, p05[i - 1], 0);
        forall j | 0 <= j < |p5s| ensures Node(j) {
          assert old(Node(j));
        }
      }
      if k / 4 > 0 { b := MultiplyBits(b, k / 4); } else { LeftNone(0); }
    }
  }
}
