/**
 * `scrapeAll` of history-brief/scrapers/index.js: the seven adapters run one
 * after another and their records are appended, in a fixed order, to one
 * list. Each adapter's output is a parameter here; the adapters themselves
 * are modelled in `Publishers` and `Podcasts`.
 */
module Orchestrator {
  import opened Records

  /** The outputs of the seven adapters, in the order `scrapeAll` calls them. */
  datatype Outputs = Outputs(
    cnrs: seq<Record>,
    puf: seq<Record>,
    passesComposes: seq<Record>,
    storiavoce: seq<Record>,
    opCit: seq<Record>,
    concordance: seq<Record>,
    coursDeLHistoire: seq<Record>)

  /** The outputs as a list, in call order. */
  function InOrder(o: Outputs): seq<seq<Record>> {
    [o.cnrs, o.puf, o.passesComposes, o.storiavoce, o.opCit, o.concordance, o.coursDeLHistoire]
  }

  /** The concatenation of a list of outputs. */
  function Flatten(parts: seq<seq<Record>>): seq<Record> {
    if parts == [] then [] else Flatten(parts[..|parts| - 1]) + parts[|parts| - 1]
  }

  /** The sum of the output lengths. */
  function TotalLength(parts: seq<seq<Record>>): nat {
    if parts == [] then 0 else TotalLength(parts[..|parts| - 1]) + |parts[|parts| - 1]|
  }

  /** Where the `k`-th output starts in the concatenation. */
  function Offset(parts: seq<seq<Record>>, k: nat): nat
    requires k <= |parts|
  {
    TotalLength(parts[..k])
  }

  /** `scrapeAll`: `allItems.push(...items)` after each adapter, in call order. */
  method ScrapeAll(o: Outputs) returns (allItems: seq<Record>)
    ensures allItems == Flatten(InOrder(o))
  {
    var parts := InOrder(o);
    allItems := [];
    for k := 0 to |parts|
      invariant allItems == Flatten(parts[..k])
    {
      assert parts[..k + 1][..k] == parts[..k];
      allItems := allItems + parts[k];
    }
    assert parts[..|parts|] == parts;
  }

  /** The result's length is the sum of the adapters' output lengths. */
  lemma {:induction false} FlattenLength(parts: seq<seq<Record>>)
    ensures |Flatten(parts)| == TotalLength(parts)
  {
    if parts != [] {
      FlattenLength(parts[..|parts| - 1]);
    }
  }

  /** The concatenation splits at any output boundary. */
  lemma {:induction false} FlattenSplit(parts: seq<seq<Record>>, k: nat)
    requires k <= |parts|
    ensures Flatten(parts) == Flatten(parts[..k]) + Flatten(parts[k..])
    decreases |parts|
  {
    if k == |parts| {
      assert parts[..k] == parts;
      assert parts[k..] == [];
    } else {
      var front := parts[..|parts| - 1];
      assert front[..k] == parts[..k];
      assert parts[k..][..|parts[k..]| - 1] == front[k..];
      FlattenSplit(front, k);
    }
  }

  /** Each adapter's records appear unchanged, in their own order, as one contiguous block at its place. */
  lemma Contiguous(parts: seq<seq<Record>>, k: nat)
    requires k < |parts|
    ensures Flatten(parts) == Flatten(parts[..k]) + parts[k] + Flatten(parts[k + 1..])
    ensures |Flatten(parts[..k])| == Offset(parts, k)
  {
    FlattenSplit(parts, k + 1);
    var upTo := parts[..k + 1];
    assert upTo[..k] == parts[..k];
    FlattenLength(parts[..k]);
  }

  /** The total is the sum of the seven outputs, in call order. */
  lemma SevenOutputs(o: Outputs)
    ensures Flatten(InOrder(o)) == o.cnrs + o.puf + o.passesComposes + o.storiavoce + o.opCit + o.concordance + o.coursDeLHistoire
    ensures |Flatten(InOrder(o))| == |o.cnrs| + |o.puf| + |o.passesComposes| + |o.storiavoce| + |o.opCit| + |o.concordance| + |o.coursDeLHistoire|
  {
    var parts := InOrder(o);
    assert parts[..0] == [];
    assert parts[..1][..0] == parts[..0];
    assert parts[..2][..1] == parts[..1];
    assert parts[..3][..2] == parts[..2];
    assert parts[..4][..3] == parts[..3];
    assert parts[..5][..4] == parts[..4];
    assert parts[..6][..5] == parts[..5];
    assert parts[..6] == parts[..|parts| - 1];
    assert Flatten(parts[..1]) == o.cnrs;
    assert Flatten(parts[..2]) == o.cnrs + o.puf;
    assert Flatten(parts[..3]) == o.cnrs + o.puf + o.passesComposes;
    assert Flatten(parts[..4]) == o.cnrs + o.puf + o.passesComposes + o.storiavoce;
    assert Flatten(parts[..5]) == o.cnrs + o.puf + o.passesComposes + o.storiavoce + o.opCit;
    assert Flatten(parts[..6]) == o.cnrs + o.puf + o.passesComposes + o.storiavoce + o.opCit + o.concordance;
  }
}
