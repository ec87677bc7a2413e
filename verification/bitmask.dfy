/** The 9-bit digit masks of the solver and the generator, and the digit sets
    that stand for them in the rest of the model.

    Bit d of a mask marks digit d + 1. Setting a bit is `|`, testing it is `&`,
    and the undo of a placement flips it back with `^`. The lemmas below show
    that these are set union, membership and `Toggle` on the digit set, and that
    flipping a bit that was just set restores the mask. */
module Bitmask {

  /** Flipping membership of `v`: the set-level reading of `mask ^ bit`. */
  function Toggle(s: set<int>, v: int): set<int> {
    if v in s then s - {v} else s + {v}
  }

  /** Undoing an addition with a flip gives back the set it started from,
      provided the digit was absent before. */
  lemma ToggleUndoesAdd(s: set<int>, v: int)
    requires v !in s
    ensures Toggle(s + {v}, v) == s
  {
  }

  function Bit(d: nat): bv9
    requires d < 9
  {
    1 << d
  }

  /** The digits a mask marks. */
  ghost function Members(m: bv9): set<int> {
    set d: nat | d < 9 && m & Bit(d) != 0 :: d + 1
  }

  lemma BitOr(m: bv9, d: nat, e: nat)
    requires d < 9 && e < 9
    ensures ((m | Bit(d)) & Bit(e) != 0) <==> (m & Bit(e) != 0 || d == e)
  {
  }

  lemma BitXor(m: bv9, d: nat, e: nat)
    requires d < 9 && e < 9
    ensures ((m ^ Bit(d)) & Bit(e) != 0) <==> (if d == e then m & Bit(e) == 0 else m & Bit(e) != 0)
  {
  }

  /** Membership in `Members` is a bit test. */
  lemma InMembers(m: bv9, x: int)
    ensures x in Members(m) <==> 1 <= x <= 9 && m & Bit(x - 1) != 0
  {
    if 1 <= x <= 9 && m & Bit(x - 1) != 0 {
      var e: nat := x - 1;
      assert e + 1 in Members(m);
    }
  }

  /** Testing bit d asks whether digit d + 1 is in the set. */
  lemma AndTests(m: bv9, d: nat)
    requires d < 9
    ensures (m & Bit(d) != 0) <==> d + 1 in Members(m)
  {
    InMembers(m, d + 1);
  }

  /** `mask |= bit` adds digit d + 1. */
  lemma OrAdds(m: bv9, d: nat)
    requires d < 9
    ensures Members(m | Bit(d)) == Members(m) + {d + 1}
  {
    var m' := m | Bit(d);
    forall x
      ensures x in Members(m') <==> x in Members(m) + {d + 1}
    {
      OrMember(m, d, x);
    }
  }

  /** One digit of `mask | bit`. */
  lemma OrMember(m: bv9, d: nat, x: int)
    requires d < 9
    ensures x in Members(m | Bit(d)) <==> x in Members(m) || x == d + 1
  {
    InMembers(m | Bit(d), x);
    InMembers(m, x);
    if 1 <= x <= 9 {
      BitOr(m, d, x - 1);
    }
  }

  /** `mask ^= bit` flips digit d + 1. */
  lemma XorToggles(m: bv9, d: nat)
    requires d < 9
    ensures Members(m ^ Bit(d)) == Toggle(Members(m), d + 1)
  {
    var m' := m ^ Bit(d);
    InMembers(m, d + 1);
    forall x
      ensures x in Members(m') <==> x in Toggle(Members(m), d + 1)
    {
      XorMember(m, d, x);
    }
  }

  /** One digit of `mask ^ bit`. */
  lemma XorMember(m: bv9, d: nat, x: int)
    requires d < 9
    ensures x in Members(m ^ Bit(d)) <==> if x == d + 1 then x !in Members(m) else x in Members(m)
  {
    var m' := m ^ Bit(d);
    InMembers(m', x);
    InMembers(m, x);
    if 1 <= x <= 9 {
      var e: nat := x - 1;
      BitXor(m, d, e);
      if e == d {
        assert x in Members(m') <==> m & Bit(e) == 0;
      } else {
        assert x in Members(m') <==> m & Bit(e) != 0;
      }
    }
  }

  /** The undo's `^=` acts as a bit clear only because the bit was clear
      before the matching `|=`: then the mask comes back unchanged. */
  lemma XorAfterOrRestores(m: bv9, d: nat)
    requires d < 9
    requires m & Bit(d) == 0
    ensures (m | Bit(d)) ^ Bit(d) == m
  {
  }
}
