/**
 * The deduplication store: the key an item is remembered by, the file of
 * remembered keys, and the filter that lets through the items whose key was
 * not remembered at the start of a run.
 */
module Storage {
  import opened Wrappers
  import opened Text
  import opened Records

  /** A template literal's rendering of a property that may be `undefined`. */
  function Render(v: Option<string>): string {
    if v.Some? then v.value else "undefined"
  }

  /**
   * The string `generateHash` digests: title, url and source joined by `-`.
   * The digest itself is left out; two items share a hash exactly when they
   * share this string.
   */
  function Key(r: Record): string {
    Render(r.title) + "-" + Render(r.url) + "-" + r.source
  }

  /** The key depends on title, url and source only. */
  lemma KeyIgnoresContent(a: Record, b: Record)
    requires a.title == b.title && a.url == b.url && a.source == b.source
    ensures Key(a) == Key(b)
  {
  }

  /** Two records with different titles and urls whose joins coincide share a key. */
  lemma {:induction false} KeyCollision(source: string)
    ensures var a := Record(Some("a-b"), Some("c"), None, "", DateUtils.Invalid, source, "publisher", None);
            var b := Record(Some("a"), Some("b-c"), None, "", DateUtils.Invalid, source, "publisher", None);
            a.title != b.title && a.url != b.url && Key(a) == Key(b)
  {
    assert "a-b" + "-" + "c" == "a" + "-" + "b-c";
  }

  /**
   * What reading the seen file gives: the set `new Set(JSON.parse(data))` builds (from an array of keys, but also `{}` from
   * `null` and the characters of a JSON string), content that does not parse to null or an iterable, or a read error with its code.
   */
  datatype SeenFile = Stored(hashes: set<string>) | Malformed | ReadError(code: string)

  /** `loadSeenItems`: a missing file reads as the empty set, every other failure propagates. */
  function LoadSeen(f: SeenFile): (r: Result<set<string>>)
    ensures f.Stored? ==> r == Success(f.hashes)
    ensures f.ReadError? ==> (r.Success? <==> f.code == "ENOENT")
    ensures f.ReadError? && r.Success? ==> r.value == {}
    ensures f.Malformed? ==> r.Failure?
  {
    match f
    case Stored(hashes) => Success(hashes)
    case Malformed => Failure("SyntaxError")
    case ReadError(code) => if code == "ENOENT" then Success({}) else Failure(code)
  }

  /** The items whose key is not in `seen`, in input order; the output of `filterNewItems`. */
  function NewItems(items: seq<Record>, seen: set<string>): seq<Record>
  {
    if items == [] then []
    else
      var last := items[|items| - 1];
      NewItems(items[..|items| - 1], seen) + (if Key(last) in seen then [] else [last])
  }

  /** The keys of all the items. */
  function KeySet(items: seq<Record>): set<string>
  {
    if items == [] then {} else KeySet(items[..|items| - 1]) + {Key(items[|items| - 1])}
  }

  lemma {:induction false} KeySetMember(items: seq<Record>, k: string)
    ensures k in KeySet(items) <==> exists i :: 0 <= i < |items| && Key(items[i]) == k
  {
    if items != [] {
      var front := items[..|items| - 1];
      KeySetMember(front, k);
      if k in KeySet(front) {
        var i :| 0 <= i < |front| && Key(front[i]) == k;
        assert items[i] == front[i];
      }
      if exists i :: 0 <= i < |items| && Key(items[i]) == k {
        var i :| 0 <= i < |items| && Key(items[i]) == k;
        if i < |front| { assert front[i] == items[i]; }
      }
    }
  }

  /** Filtering a concatenation filters each part. */
  lemma {:induction false} NewItemsConcat(a: seq<Record>, b: seq<Record>, seen: set<string>)
    ensures NewItems(a + b, seen) == NewItems(a, seen) + NewItems(b, seen)
    decreases |b|
  {
    if b == [] {
      assert a + b == a;
    } else {
      var front := b[..|b| - 1];
      assert (a + b)[..|a + b| - 1] == a + front;
      NewItemsConcat(a, front, seen);
    }
  }

  /** A single item is let through exactly when its key was not seen. */
  lemma NewItemsSingle(x: Record, seen: set<string>)
    ensures NewItems([x], seen) == if Key(x) in seen then [] else [x]
  {
    assert [x][..0] == [];
  }

  /** Each value is emitted as often as it occurs in the input when its key is new, and never otherwise. */
  lemma {:induction false} NewItemsCount(items: seq<Record>, seen: set<string>, x: Record)
    ensures Count(NewItems(items, seen), x) == if Key(x) in seen then 0 else Count(items, x)
  {
    if items != [] {
      var front := items[..|items| - 1];
      var last := items[|items| - 1];
      NewItemsCount(front, seen, x);
      var tail := if Key(last) in seen then [] else [last];
      CountConcat(NewItems(front, seen), tail, x);
      if tail != [] {
        assert [last][..0] == [];
      }
    }
  }

  lemma {:induction false} CountConcat<T>(a: seq<T>, b: seq<T>, x: T)
    ensures Count(a + b, x) == Count(a, x) + Count(b, x)
    decreases |b|
  {
    if b == [] {
      assert a + b == a;
    } else {
      assert (a + b)[..|a + b| - 1] == a + b[..|b| - 1];
      CountConcat(a, b[..|b| - 1], x);
    }
  }

  /** An item is emitted iff it occurs in the input and its key was not seen. */
  lemma {:induction false} NewItemsMember(items: seq<Record>, seen: set<string>, x: Record)
    ensures x in NewItems(items, seen) <==> x in items && Key(x) !in seen
  {
    NewItemsCount(items, seen, x);
    CountPositive(NewItems(items, seen), x);
    CountPositive(items, x);
  }

  lemma {:induction false} CountPositive<T>(s: seq<T>, x: T)
    ensures Count(s, x) > 0 <==> x in s
  {
    if s != [] {
      CountPositive(s[..|s| - 1], x);
      assert s == s[..|s| - 1] + [s[|s| - 1]];
    }
  }

  /** Two equal items with an unseen key in one run are both emitted. */
  lemma InRunDuplicatesEmitted(x: Record, seen: set<string>)
    requires Key(x) !in seen
    ensures NewItems([x, x], seen) == [x, x]
  {
    NewItemsConcat([x], [x], seen);
    assert [x] + [x] == [x, x];
    NewItemsSingle(x, seen);
  }

  /** The emitted items contribute the same new keys as the whole input. */
  lemma {:induction false} SavedSetCoversInput(items: seq<Record>, seen: set<string>)
    ensures seen + KeySet(NewItems(items, seen)) == seen + KeySet(items)
  {
    if items != [] {
      var front := items[..|items| - 1];
      var last := items[|items| - 1];
      SavedSetCoversInput(front, seen);
      var tail := if Key(last) in seen then [] else [last];
      KeySetConcat(NewItems(front, seen), tail);
      if tail != [] { assert [last][..0] == []; }
    }
  }

  lemma KeySetConcat(a: seq<Record>, b: seq<Record>)
    ensures KeySet(a + b) == KeySet(a) + KeySet(b)
    decreases |b|
  {
    if b == [] {
      assert a + b == a;
    } else {
      assert (a + b)[..|a + b| - 1] == a + b[..|b| - 1];
      KeySetConcat(a, b[..|b| - 1]);
    }
  }

  /** Running the filter again from the set it saved lets nothing through. */
  lemma {:induction false} FilterIdempotent(items: seq<Record>, seen: set<string>)
    ensures NewItems(items, seen + KeySet(items)) == []
  {
    var saved := seen + KeySet(items);
    if NewItems(items, saved) != [] {
      var x := NewItems(items, saved)[0];
      NewItemsMember(items, saved, x);
      var i :| 0 <= i < |items| && items[i] == x;
      KeySetMember(items, Key(x));
      assert false;
    }
  }

  lemma NewItemsStep(items: seq<Record>, i: nat, seen: set<string>)
    requires i < |items|
    ensures NewItems(items[..i + 1], seen)
            == NewItems(items[..i], seen) + (if Key(items[i]) in seen then [] else [items[i]])
  {
    assert items[..i + 1][..i] == items[..i];
  }

  lemma KeySetSnoc(a: seq<Record>, x: Record)
    ensures KeySet(a + [x]) == KeySet(a) + {Key(x)}
  {
    assert (a + [x])[..|a|] == a;
  }

  /** The loop of `filterNewItems`: the new items, and the loaded set with each new item's key added. */
  method SelectNew(items: seq<Record>, seen: set<string>) returns (newItems: seq<Record>, newHashes: set<string>)
    ensures newItems == NewItems(items, seen)
    ensures newHashes == seen + KeySet(items)
  {
    newItems := [];
    newHashes := seen;
    for i := 0 to |items|
      invariant newItems == NewItems(items[..i], seen)
      invariant newHashes == seen + KeySet(newItems)
    {
      var hash := Key(items[i]);
      NewItemsStep(items, i, seen);
      if hash !in seen {
        KeySetSnoc(newItems, items[i]);
        newItems := newItems + [items[i]];
        newHashes := newHashes + {hash};
      }
    }
    assert items[..|items|] == items;
    SavedSetCoversInput(items, seen);
  }

  /** The seen file and the number of times it has been written. */
  class SeenStore {
    var file: SeenFile
    var saves: nat

    constructor(initial: SeenFile)
      ensures file == initial && saves == 0
    {
      file := initial;
      saves := 0;
    }

    /** `saveSeenItems`: one write of the whole set. */
    method Save(hashes: set<string>)
      modifies this
      ensures file == Stored(hashes) && saves == old(saves) + 1
    {
      file := Stored(hashes);
      saves := saves + 1;
    }

    /**
     * `filterNewItems`: emits the items whose key was not in the loaded set,
     * then saves the loaded set with every input key added, once.
     * A load error other than a missing file propagates and nothing is saved.
     */
    method FilterNewItems(items: seq<Record>) returns (r: Result<seq<Record>>)
      modifies this
      ensures LoadSeen(old(file)).Failure? ==>
        r == Failure(LoadSeen(old(file)).error) && file == old(file) && saves == old(saves)
      ensures LoadSeen(old(file)).Success? ==>
        var seen := LoadSeen(old(file)).value;
        r == Success(NewItems(items, seen))
        && file == Stored(seen + KeySet(items))
        && saves == old(saves) + 1
    {
      var loaded := LoadSeen(file);
      if loaded.Failure? {
        return Failure(loaded.error);
      }
      var newItems, newHashes := SelectNew(items, loaded.value);
      Save(newHashes);
      r := Success(newItems);
    }
  }
}
