/** Writing the items of a sequence one after another. */
module Sequences {
  /** The spellings of a sequence, one after another. */
  function Flatten<A, B>(spelling: A -> seq<B>, items: seq<A>): seq<B> {
    if items == [] then [] else Flatten(spelling, items[..|items| - 1]) + spelling(items[|items| - 1])
  }

  lemma {:induction false} FlattenJoins<A, B>(spelling: A -> seq<B>, one: seq<A>, other: seq<A>)
    ensures Flatten(spelling, one + other) == Flatten(spelling, one) + Flatten(spelling, other)
  {
    var all := one + other;
    if other == [] {
      assert all == one;
    } else {
      var front, last := other[..|other| - 1], other[|other| - 1];
      assert all[..|all| - 1] == one + front && all[|all| - 1] == last;
      FlattenJoins(spelling, one, front);
      assert (Flatten(spelling, one) + Flatten(spelling, front)) + spelling(last)
          == Flatten(spelling, one) + (Flatten(spelling, front) + spelling(last));
    }
  }

  lemma FlattenPush<A, B>(spelling: A -> seq<B>, items: seq<A>, item: A)
    ensures Flatten(spelling, items + [item]) == Flatten(spelling, items) + spelling(item)
  {
    assert (items + [item])[..|items|] == items;
  }

  lemma FlattenOne<A, B>(spelling: A -> seq<B>, item: A)
    ensures Flatten(spelling, [item]) == spelling(item)
  {
    FlattenPush(spelling, [], item);
    assert [] + [item] == [item];
    assert [] + spelling(item) == spelling(item);
  }

  /** One more item written after some start. */
  lemma FlattenNext<A, B>(start: seq<B>, spelling: A -> seq<B>, items: seq<A>, i: nat)
    requires i < |items|
    ensures start + Flatten(spelling, items[..i]) + spelling(items[i]) == start + Flatten(spelling, items[..i + 1])
  {
    assert items[..i + 1][..i] == items[..i];
    Joined(start, Flatten(spelling, items[..i]), spelling(items[i]));
  }

  /** The first item stands in front of the others and of what follows them. */
  lemma FlattenFirst<A, B>(spelling: A -> seq<B>, items: seq<A>, rest: seq<B>)
    requires items != []
    ensures Flatten(spelling, items) + rest == spelling(items[0]) + (Flatten(spelling, items[1..]) + rest)
  {
    FlattenJoins(spelling, [items[0]], items[1..]);
    FlattenOne(spelling, items[0]);
    assert [items[0]] + items[1..] == items;
    Joined(spelling(items[0]), Flatten(spelling, items[1..]), rest);
  }

  lemma Joined<T>(a: seq<T>, b: seq<T>, c: seq<T>)
    ensures (a + b) + c == a + (b + c)
  {
  }
}
