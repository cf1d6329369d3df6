/**
 * The consistent-hash ring the overlay keeps (github.com/stathat/consistent,
 * whose code is not part of this model).
 *
 * The ring is the set of node ids it holds. Each id sits at one position of
 * the circle (the id itself) and a key is hashed onto the same circle; its
 * owner is the first id clockwise from the key's point. The hash of a key is
 * a parameter of the model. The overlay relies only on the contract of
 * `Owner`: a deterministic choice among the ids in the ring, absent exactly
 * when the ring is empty.
 */
module Ring {
  import opened Wire

  /** The least element of a non-empty set. */
  function Least(s: set<int>): (m: int)
    requires s != {}
    ensures m in s
    ensures forall y :: y in s ==> m <= y
  {
    LeastExists(s);
    var m :| m in s && forall y :: y in s ==> m <= y; m
  }

  lemma LeastExists(s: set<int>)
    requires s != {}
    ensures exists m :: m in s && forall y :: y in s ==> m <= y
  {
    var m := LeastWitness(s);
  }

  lemma {:induction false} LeastWitness(s: set<int>) returns (m: int)
    requires s != {}
    ensures m in s && forall y :: y in s ==> m <= y
    decreases |s|
  {
    if !exists y :: y in s {
      assert false;
    }
    var x :| x in s;
    var rest := s - {x};
    if rest == {} {
      m := x;
      forall y | y in s ensures m <= y {
        assert y == x || y in rest;
      }
    } else {
      var r := LeastWitness(rest);
      m := if x < r then x else r;
      forall y | y in s ensures m <= y {
        if y != x { assert y in rest; }
      }
    }
  }

  /** The ids of `ring` at or after `point` on the circle. */
  function After(ring: set<int>, point: int): (r: set<int>)
    ensures forall id :: id in r ==> id in ring && id >= point
    ensures forall id :: id in ring && id >= point ==> id in r
  {
    set id | id in ring && id >= point
  }

  /**
   * `id` is the first id of `ring` met walking clockwise from `point`: the
   * least id at or after `point`, or, when there is none, the least id of all.
   */
  ghost predicate FirstClockwise(ring: set<int>, point: int, id: int)
  {
    && id in ring
    && ((exists j :: j in ring && j >= point) ==> id >= point && forall j :: j in ring && j >= point ==> id <= j)
    && ((forall j :: j in ring ==> j < point) ==> forall j :: j in ring ==> id <= j)
  }

  /**
   * `Get(key)` with the key hashed to `point`: the owner of the key, or
   * `None` on an empty ring.
   */
  function Owner(ring: set<int>, point: int): (r: Option<int>)
    ensures r.None? <==> ring == {}
    ensures r.Some? ==> FirstClockwise(ring, point, r.value)
  {
    var after := After(ring, point);
    if after != {} then Some(Least(after))
    else if ring != {} then Some(Least(ring))
    else None
  }

  /**
   * Adding an id to the ring moves only the keys that the new id now owns:
   * every other key keeps its owner.
   */
  lemma OwnerAfterAdd(ring: set<int>, point: int, id: int)
    ensures var before := Owner(ring, point);
            var now := Owner(ring + {id}, point);
            now == Some(id) || now == before
  {
    var bigger := ring + {id};
    var now := Owner(bigger, point);
    if now != Some(id) {
      var n := now.value;
      assert n in ring;
      var before := Owner(ring, point);
      var b := before.value;
      assert b in bigger;
      if exists j :: j in bigger && j >= point {
        if n >= point {
          assert exists j :: j in ring && j >= point;
        }
        assert n <= b && b <= n;
      } else {
        assert forall j :: j in ring ==> j < point;
        assert n <= b && b <= n;
      }
    }
  }
}
