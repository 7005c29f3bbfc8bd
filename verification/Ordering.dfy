// ORDER BY a, b, c ... LIMIT n: rows sorted by the lexicographic order of their sort keys.
module Ordering {

  type Key = seq<int>

  predicate Less(a: Key, b: Key) {
    b != [] && (a == [] || a[0] < b[0] || (a[0] == b[0] && Less(a[1..], b[1..])))
  }

  lemma {:induction false} LessTotal(a: Key, b: Key)
    ensures a == b || Less(a, b) || Less(b, a)
    ensures !(Less(a, b) && Less(b, a))
    ensures !Less(a, a)
  {
    if a != [] && b != [] && a[0] == b[0] {
      LessTotal(a[1..], b[1..]);
      assert a == [a[0]] + a[1..] && b == [b[0]] + b[1..];
    }
    if a != [] {
      LessTotal(a[1..], a[1..]);
    }
  }

  lemma {:induction false} LessTransitive(a: Key, b: Key, c: Key)
    requires Less(a, b) && Less(b, c)
    ensures Less(a, c)
  {
    if a != [] && a[0] == b[0] == c[0] {
      LessTransitive(a[1..], b[1..], c[1..]);
    }
  }

  ghost predicate Distinct<T(!new)>(keys: map<T, Key>) {
    forall x, y | x in keys && y in keys && keys[x] == keys[y] :: x == y
  }

  // `order` is what the query returns over the rows of `keys`.
  ghost predicate Selects<T(!new)>(keys: map<T, Key>, limit: nat, order: seq<T>) {
    && (forall i | 0 <= i < |order| :: order[i] in keys)
    && (forall i, j | 0 <= i < j < |order| :: Less(keys[order[i]], keys[order[j]]))
    && (forall i, y | 0 <= i < |order| && y in keys && y !in order :: Less(keys[order[i]], keys[y]))
    && |order| <= limit
    && (|order| < limit ==> forall y | y in keys :: y in order)
  }

  lemma {:induction false} FirstExists<T(!new)>(keys: map<T, Key>, left: set<T>) returns (first: T)
    requires Distinct(keys) && left != {} && left <= keys.Keys
    ensures first in left && forall y | y in left :: y == first || Less(keys[first], keys[y])
    decreases |left|
  {
    var x :| x in left;
    if left == {x} {
      first := x;
    } else {
      assert left - {x} < left;
      var y := FirstExists(keys, left - {x});
      LessTotal(keys[x], keys[y]);
      if Less(keys[x], keys[y]) {
        first := x;
        forall z | z in left - {x} && z != y ensures Less(keys[x], keys[z]) {
          LessTransitive(keys[x], keys[y], keys[z]);
        }
      } else {
        first := y;
      }
    }
  }

  method SelectFirst<T(==,!new)>(keys: map<T, Key>, limit: nat) returns (order: seq<T>)
    requires Distinct(keys)
    ensures Selects(keys, limit, order)
  {
    var left := keys.Keys;
    order := [];
    while |order| < limit && left != {}
      invariant left <= keys.Keys
      invariant forall i | 0 <= i < |order| :: order[i] in keys
      invariant forall y | y in keys :: y in order <==> y !in left
      invariant forall i, j | 0 <= i < j < |order| :: Less(keys[order[i]], keys[order[j]])
      invariant forall i, y | 0 <= i < |order| && y in left :: Less(keys[order[i]], keys[y])
      invariant |order| <= limit
      decreases |left|
    {
      ghost var best := FirstExists(keys, left);
      var first :| first in left && forall y | y in left :: y == first || Less(keys[first], keys[y]);
      order, left := order + [first], left - {first};
    }
  }

  // A selection never repeats a row and is determined by the keys.
  lemma SelectsOnce<T(!new)>(keys: map<T, Key>, limit: nat, order: seq<T>)
    requires Selects(keys, limit, order)
    ensures forall i, j | 0 <= i < j < |order| :: order[i] != order[j]
  {
    forall i, j | 0 <= i < j < |order| ensures order[i] != order[j] {
      LessTotal(keys[order[i]], keys[order[j]]);
    }
  }
}
