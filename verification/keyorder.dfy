/** The order of `std::map<std::string, Value>`: byte-wise lexicographic
    comparison (`std::char_traits<char>` compares as unsigned bytes), a proper
    prefix before the longer string. The encoder writes object members in
    this order. */
module KeyOrder {

  /** `a` sorts no later than `b`. */
  predicate Below(a: string, b: string) {
    |a| == 0 || (|b| > 0 && (a[0] < b[0] || (a[0] == b[0] && Below(a[1..], b[1..]))))
  }

  predicate Before(a: string, b: string) {
    Below(a, b) && a != b
  }

  lemma {:induction false} BelowReflexive(a: string)
    ensures Below(a, a)
  {
    if |a| > 0 {
      BelowReflexive(a[1..]);
    }
  }

  lemma {:induction false} BelowAntisymmetric(a: string, b: string)
    requires Below(a, b) && Below(b, a)
    ensures a == b
  {
    if |a| > 0 && |b| > 0 {
      BelowAntisymmetric(a[1..], b[1..]);
      assert a == [a[0]] + a[1..];
      assert b == [b[0]] + b[1..];
    }
  }

  lemma {:induction false} BelowTransitive(a: string, b: string, c: string)
    requires Below(a, b) && Below(b, c)
    ensures Below(a, c)
  {
    if |a| > 0 && a[0] == b[0] && b[0] == c[0] {
      BelowTransitive(a[1..], b[1..], c[1..]);
    }
  }

  lemma {:induction false} BelowTotal(a: string, b: string)
    ensures Below(a, b) || Below(b, a)
  {
    if |a| > 0 && |b| > 0 && a[0] == b[0] {
      BelowTotal(a[1..], b[1..]);
    }
  }

  predicate IsLeast(k: string, keys: set<string>) {
    k in keys && forall x :: x in keys ==> Below(k, x)
  }

  lemma {:induction false} LeastExists(keys: set<string>)
    requires keys != {}
    ensures exists k :: IsLeast(k, keys)
    decreases |keys|
  {
    var y :| y in keys;
    if keys == {y} {
      BelowReflexive(y);
      assert IsLeast(y, keys);
    } else {
      var rest := keys - {y};
      LeastExists(rest);
      var k :| IsLeast(k, rest);
      BelowTotal(k, y);
      if Below(k, y) {
        assert IsLeast(k, keys);
      } else {
        forall x | x in keys
          ensures Below(y, x)
        {
          if x == y {
            BelowReflexive(y);
          } else {
            BelowTransitive(y, k, x);
          }
        }
        assert IsLeast(y, keys);
      }
    }
  }

  lemma LeastUnique(keys: set<string>)
    ensures forall a, b :: IsLeast(a, keys) && IsLeast(b, keys) ==> a == b
  {
    forall a, b | IsLeast(a, keys) && IsLeast(b, keys)
      ensures a == b
    {
      BelowAntisymmetric(a, b);
    }
  }

  /** The smallest key of a non-empty set. */
  function Least(keys: set<string>): (k: string)
    requires keys != {}
    ensures IsLeast(k, keys)
  {
    LeastExists(keys);
    LeastUnique(keys);
    var k :| IsLeast(k, keys);
    k
  }

  predicate StrictlySorted(ks: seq<string>) {
    forall i, j :: 0 <= i < j < |ks| ==> Before(ks[i], ks[j])
  }

  /** The keys of a map in the order a `std::map` iterates them: each key
      exactly once, in ascending byte order. */
  function SortedKeys(keys: set<string>): (r: seq<string>)
    ensures |r| == |keys|
    ensures forall k :: k in keys <==> k in r
    ensures forall i :: 0 <= i < |r| ==> r[i] in keys
    ensures StrictlySorted(r)
    decreases |keys|
  {
    if keys == {} then []
    else
      var k := Least(keys);
      var rest := SortedKeys(keys - {k});
      forall i | 0 <= i < |rest|
        ensures Before(k, rest[i])
      {
        assert rest[i] in rest;
      }
      [k] + rest
  }

  /** A strictly sorted listing of a set is unique: it is the one
      `SortedKeys` computes. */
  lemma {:induction false} SortedListingUnique(ks: seq<string>, keys: set<string>)
    requires StrictlySorted(ks)
    requires forall k :: k in keys <==> k in ks
    ensures ks == SortedKeys(keys)
    decreases |ks|
  {
    if |ks| == 0 {
      assert keys == {};
    } else {
      assert ks[0] in keys;
      FirstIsLeast(ks, keys);
      LeastUnique(keys);
      var k := Least(keys);
      assert ks[0] == k;
      TailListsRest(ks, keys);
      SortedListingUnique(ks[1..], keys - {k});
      assert ks == [k] + ks[1..];
    }
  }

  /** The first key of a strictly sorted listing is the least one. */
  lemma FirstIsLeast(ks: seq<string>, keys: set<string>)
    requires StrictlySorted(ks) && |ks| > 0
    requires forall k :: k in keys <==> k in ks
    ensures IsLeast(ks[0], keys)
  {
    forall x | x in keys
      ensures Below(ks[0], x)
    {
      if x != ks[0] {
        var j :| 0 <= j < |ks| && ks[j] == x;
        assert Before(ks[0], ks[j]);
      } else {
        BelowReflexive(x);
      }
    }
  }

  /** Without its first key, a sorted listing lists the other keys. */
  lemma TailListsRest(ks: seq<string>, keys: set<string>)
    requires StrictlySorted(ks) && |ks| > 0
    requires forall k :: k in keys <==> k in ks
    ensures StrictlySorted(ks[1..])
    ensures forall x :: x in keys - {ks[0]} <==> x in ks[1..]
  {
    forall x
      ensures x in keys - {ks[0]} <==> x in ks[1..]
    {
      if x in ks[1..] {
        var j :| 0 <= j < |ks[1..]| && ks[1..][j] == x;
        assert ks[j + 1] == x;
        assert Before(ks[0], ks[j + 1]);
      }
    }
  }
}
