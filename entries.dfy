/**
 * The dicts the scripts fill in a loop (`d[key] = value` for every item
 * that passes a test) all follow one rule: the last assignment to a key
 * wins. `Collect` is that dict, and its two lemmas say which keys it has
 * and which value each key ends up with.
 */
module Entries {

  /** The dict left by `for x in items: if keep(x): d[key(x)] = value(x)`, from `{}`. */
  function Collect<T>(items: seq<T>, keep: T -> bool, entry: T -> (string, string)): map<string, string>
    decreases |items|
  {
    if items == [] then map[]
    else
      var m := Collect(items[..|items| - 1], keep, entry);
      var x := items[|items| - 1];
      if keep(x) then m[entry(x).0 := entry(x).1] else m
  }

  /** A key is present exactly when some kept item assigns it. */
  lemma {:induction false} CollectKeys<T>(items: seq<T>, keep: T -> bool, entry: T -> (string, string), k: string)
    ensures k in Collect(items, keep, entry)
            <==> exists i :: 0 <= i < |items| && keep(items[i]) && entry(items[i]).0 == k
    decreases |items|
  {
    if items != [] {
      var init := items[..|items| - 1];
      CollectKeys(init, keep, entry, k);
      if exists i :: 0 <= i < |init| && keep(init[i]) && entry(init[i]).0 == k {
        var i :| 0 <= i < |init| && keep(init[i]) && entry(init[i]).0 == k;
        assert items[i] == init[i];
      }
      if exists i :: 0 <= i < |items| && keep(items[i]) && entry(items[i]).0 == k {
        var i :| 0 <= i < |items| && keep(items[i]) && entry(items[i]).0 == k;
        if i < |init| {
          assert init[i] == items[i];
        }
      }
    }
  }

  /** The value of a key is the one its last kept item assigns: later items overwrite earlier ones. */
  lemma {:induction false} CollectLast<T>(items: seq<T>, keep: T -> bool, entry: T -> (string, string), i: nat)
    requires i < |items| && keep(items[i])
    requires forall j :: i < j < |items| && keep(items[j]) ==> entry(items[j]).0 != entry(items[i]).0
    ensures entry(items[i]).0 in Collect(items, keep, entry)
    ensures Collect(items, keep, entry)[entry(items[i]).0] == entry(items[i]).1
    decreases |items|
  {
    var init := items[..|items| - 1];
    if i < |items| - 1 {
      assert init[i] == items[i];
      CollectLast(init, keep, entry, i);
    }
  }

  /** The dict is empty exactly when no item is kept. */
  lemma CollectEmpty<T>(items: seq<T>, keep: T -> bool, entry: T -> (string, string))
    ensures Collect(items, keep, entry) == map[] <==> forall i :: 0 <= i < |items| ==> !keep(items[i])
  {
    if Collect(items, keep, entry) != map[] {
      var k :| k in Collect(items, keep, entry);
      CollectKeys(items, keep, entry, k);
    }
    if exists i :: 0 <= i < |items| && keep(items[i]) {
      var i :| 0 <= i < |items| && keep(items[i]);
      CollectKeys(items, keep, entry, entry(items[i]).0);
    }
  }

  /** Appending a kept item is one more assignment; appending another one changes nothing. */
  lemma CollectSnoc<T>(items: seq<T>, x: T, keep: T -> bool, entry: T -> (string, string))
    ensures Collect(items + [x], keep, entry)
            == if keep(x) then Collect(items, keep, entry)[entry(x).0 := entry(x).1] else Collect(items, keep, entry)
  {
    assert (items + [x])[..|items|] == items;
  }
}
