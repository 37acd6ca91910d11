/**
 * The assembly loop of main: for every seed, in seed order, every record its
 * generator call supplied is given the id "{seed id}-S{counter:03d}", where
 * the counter is the length of the accumulated output plus one, and is then
 * appended to that output. The counter is therefore global to the run and
 * never restarts at a new seed.
 */
module Assembler {
  import opened Wrappers
  import opened Json
  import opened Decimal
  import opened SyntheticIds
  import opened Generator

  /** A generated record waiting for its id, with the id text of the seed it came from. */
  datatype Tagged = Tagged(parent: string, record: Record)

  /**
   * The text `seed['id']` contributes to the f-string: the string itself for a
   * string id, and Python's str() of the value, given as `show`, otherwise.
   * None when the seed is not a dict or has no "id" (the lookup raises).
   */
  function SeedIdText(seed: Json, show: Json -> string): Option<string> {
    if seed.JObject? && "id" in seed.fields then
      var id := seed.fields["id"];
      Some(if id.JString? then id.s else show(id))
    else None
  }

  /**
   * `v['id'] = f"{parent}-S{counter:03d}"`: the record with its id set,
   * added if absent and overwritten if present, and every other key kept.
   */
  function Stamp(rec: Record, parent: string, counter: nat): (r: Record)
    ensures r.Keys == rec.Keys + {"id"}
    ensures r["id"] == JString(SyntheticId(parent, counter))
    ensures forall k :: k in rec && k != "id" ==> r[k] == rec[k]
  {
    rec["id" := JString(SyntheticId(parent, counter))]
  }

  function Tag(parent: string, records: seq<Record>): (r: seq<Tagged>)
    ensures |r| == |records|
    ensures forall j :: 0 <= j < |r| ==> r[j] == Tagged(parent, records[j])
  {
    seq(|records|, j requires 0 <= j < |records| => Tagged(parent, records[j]))
  }

  /**
   * What one seed contributes: its records tagged with its id text, or None
   * when processing it crashes the run (an entries value that cannot be
   * walked, or records to stamp but no usable seed id).
   */
  function SeedBatch(seed: Json, reply: Reply, show: Json -> string): Option<seq<Tagged>> {
    match Entries(Variations(reply))
    case None => None
    case Some(records) =>
      if records == [] then Some([])
      else
        match SeedIdText(seed, show)
        case None => None
        case Some(parent) => Some(Tag(parent, records))
  }

  /** All records of all seeds, seed after seed, before ids are assigned; None if the run crashes. */
  function Pending(seeds: seq<Json>, replies: seq<Reply>, show: Json -> string): Option<seq<Tagged>>
    requires |seeds| == |replies|
  {
    if seeds == [] then Some([])
    else
      var n := |seeds| - 1;
      match Pending(seeds[..n], replies[..n], show)
      case None => None
      case Some(done) =>
        match SeedBatch(seeds[n], replies[n], show)
        case None => None
        case Some(batch) => Some(done + batch)
  }

  /** The k-th pending record (0-based) stamped with counter k + 1. */
  function Stamped(pending: seq<Tagged>): (r: seq<Record>)
    ensures |r| == |pending|
    ensures forall k :: 0 <= k < |r| ==> r[k] == Stamp(pending[k].record, pending[k].parent, k + 1)
  {
    seq(|pending|, k requires 0 <= k < |pending| => Stamp(pending[k].record, pending[k].parent, k + 1))
  }

  /** How many records a reply provides (zero when it would crash the run). */
  function EntryCount(reply: Reply): nat {
    match Entries(Variations(reply))
    case None => 0
    case Some(records) => |records|
  }

  /** The sum of the per-seed list lengths. */
  function TotalEntries(replies: seq<Reply>): nat {
    if replies == [] then 0 else TotalEntries(replies[..|replies| - 1]) + EntryCount(replies[|replies| - 1])
  }

  lemma SeedBatchSize(seed: Json, reply: Reply, show: Json -> string)
    requires SeedBatch(seed, reply, show).Some?
    ensures |SeedBatch(seed, reply, show).value| == EntryCount(reply)
  {
  }

  /** The run crashes exactly when some seed's processing crashes. */
  lemma {:induction false} PendingCrashIff(seeds: seq<Json>, replies: seq<Reply>, show: Json -> string)
    requires |seeds| == |replies|
    ensures Pending(seeds, replies, show).None? <==>
            exists i :: 0 <= i < |seeds| && SeedBatch(seeds[i], replies[i], show).None?
    decreases |seeds|
  {
    if seeds != [] {
      var n := |seeds| - 1;
      PendingCrashIff(seeds[..n], replies[..n], show);
      if Pending(seeds[..n], replies[..n], show).None? {
        var i :| 0 <= i < n && SeedBatch(seeds[..n][i], replies[..n][i], show).None?;
        assert seeds[..n][i] == seeds[i] && replies[..n][i] == replies[i];
      } else if Pending(seeds, replies, show).None? {
        assert SeedBatch(seeds[n], replies[n], show).None?;
      } else {
        forall i | 0 <= i < |seeds| ensures SeedBatch(seeds[i], replies[i], show).Some? {
          if i < n {
            assert seeds[..n][i] == seeds[i] && replies[..n][i] == replies[i];
          }
        }
      }
    }
  }

  /** The output is as long as all per-seed lists together. */
  lemma {:induction false} PendingLength(seeds: seq<Json>, replies: seq<Reply>, show: Json -> string)
    requires |seeds| == |replies|
    requires Pending(seeds, replies, show).Some?
    ensures |Pending(seeds, replies, show).value| == TotalEntries(replies)
    decreases |seeds|
  {
    if seeds != [] {
      var n := |seeds| - 1;
      PendingLength(seeds[..n], replies[..n], show);
      SeedBatchSize(seeds[n], replies[n], show);
    }
  }

  /**
   * Order: the j-th record supplied for seed i sits right after the records
   * of all earlier seeds, at position TotalEntries(replies[..i]) + j, tagged
   * with seed i's id.
   */
  lemma {:induction false} PendingAt(seeds: seq<Json>, replies: seq<Reply>, show: Json -> string, i: nat, j: nat)
    requires |seeds| == |replies|
    requires Pending(seeds, replies, show).Some?
    requires i < |seeds| && j < EntryCount(replies[i])
    ensures SeedIdText(seeds[i], show).Some? && Entries(Variations(replies[i])).Some?
    ensures TotalEntries(replies[..i]) + j < |Pending(seeds, replies, show).value|
    ensures Pending(seeds, replies, show).value[TotalEntries(replies[..i]) + j] ==
            Tagged(SeedIdText(seeds[i], show).value, Entries(Variations(replies[i])).value[j])
    decreases |seeds|
  {
    var n := |seeds| - 1;
    var done := Pending(seeds[..n], replies[..n], show).value;
    PendingLength(seeds[..n], replies[..n], show);
    if i == n {
      assert replies[..n] == replies[..i];
    } else {
      PendingAt(seeds[..n], replies[..n], show, i, j);
      assert seeds[..n][i] == seeds[i] && replies[..n][i] == replies[i];
      assert replies[..n][..i] == replies[..i];
      PendingLength(seeds, replies, show);
    }
  }

  /**
   * The loop of main (the accumulation into new_dataset): None when the run
   * crashes, otherwise every pending record stamped with its 1-based position.
   */
  method Assemble(seeds: seq<Json>, replies: seq<Reply>, show: Json -> string) returns (r: Option<seq<Record>>)
    requires |seeds| == |replies|
    ensures r.None? <==> Pending(seeds, replies, show).None?
    ensures r.Some? ==> r.value == Stamped(Pending(seeds, replies, show).value)
  {
    var dataset: seq<Record> := [];
    for i := 0 to |seeds|
      invariant Pending(seeds[..i], replies[..i], show).Some?
      invariant dataset == Stamped(Pending(seeds[..i], replies[..i], show).value)
    {
      ghost var done := Pending(seeds[..i], replies[..i], show).value;
      var variations := Entries(Variations(replies[i]));
      if variations.None? {
        CrashPersists(seeds, replies, show, i);
        return None;
      }
      var records := variations.value;
      for j := 0 to |records|
        invariant j > 0 ==> SeedIdText(seeds[i], show).Some?
        invariant j == 0 ==> dataset == Stamped(done)
        invariant j > 0 ==> dataset == Stamped(done + Tag(SeedIdText(seeds[i], show).value, records[..j]))
      {
        var parent := SeedIdText(seeds[i], show);
        if parent.None? {
          CrashPersists(seeds, replies, show, i);
          return None;
        }
        StampStep(done, parent.value, records, j);
        dataset := dataset + [Stamp(records[j], parent.value, |dataset| + 1)];
      }
      PendingStep(seeds, replies, show, i);
    }
    assert seeds[..|seeds|] == seeds && replies[..|replies|] == replies;
    return Some(dataset);
  }

  lemma StampedSnoc(pending: seq<Tagged>, t: Tagged)
    ensures Stamped(pending + [t]) == Stamped(pending) + [Stamp(t.record, t.parent, |pending| + 1)]
  {
  }

  /** Stamping the next record of a seed's batch extends the output by one record numbered in sequence. */
  lemma StampStep(done: seq<Tagged>, parent: string, records: seq<Record>, j: nat)
    requires j < |records|
    ensures |Stamped(done + Tag(parent, records[..j]))| == |done| + j
    ensures Stamped(done + Tag(parent, records[..j])) + [Stamp(records[j], parent, |done| + j + 1)] ==
            Stamped(done + Tag(parent, records[..j + 1]))
    ensures j == 0 ==> Stamped(done + Tag(parent, records[..j])) == Stamped(done)
  {
    var before := done + Tag(parent, records[..j]);
    assert before + [Tagged(parent, records[j])] == done + Tag(parent, records[..j + 1]);
    StampedSnoc(before, Tagged(parent, records[j]));
    if j == 0 {
      assert before == done;
    }
  }

  /** Pending of one more seed extends Pending of the earlier ones by that seed's batch. */
  lemma PendingStep(seeds: seq<Json>, replies: seq<Reply>, show: Json -> string, i: nat)
    requires |seeds| == |replies| && i < |seeds|
    requires Pending(seeds[..i], replies[..i], show).Some?
    requires SeedBatch(seeds[i], replies[i], show).Some?
    ensures Pending(seeds[..i + 1], replies[..i + 1], show) ==
            Some(Pending(seeds[..i], replies[..i], show).value + SeedBatch(seeds[i], replies[i], show).value)
    ensures SeedBatch(seeds[i], replies[i], show).value ==
            if Entries(Variations(replies[i])).value == [] then []
            else Tag(SeedIdText(seeds[i], show).value, Entries(Variations(replies[i])).value)
  {
    assert seeds[..i + 1][..i] == seeds[..i] && replies[..i + 1][..i] == replies[..i];
  }

  /** A seed whose processing crashes crashes the whole run, whatever comes after it. */
  lemma CrashPersists(seeds: seq<Json>, replies: seq<Reply>, show: Json -> string, i: nat)
    requires |seeds| == |replies| && i < |seeds|
    requires SeedBatch(seeds[i], replies[i], show).None?
    ensures Pending(seeds, replies, show).None?
  {
    PendingCrashIff(seeds, replies, show);
  }

  /**
   * Every output record carries the id of its seed and its 1-based position:
   * the id reads back as exactly that pair, and every other key is the
   * generated record's own.
   */
  lemma StampedIds(pending: seq<Tagged>, k: nat)
    requires k < |pending|
    ensures var out := Stamped(pending);
      && "id" in out[k] && out[k]["id"].JString?
      && ParseId(out[k]["id"].s) == Some((pending[k].parent, k + 1))
      && out[k].Keys == pending[k].record.Keys + {"id"}
      && forall key :: key in pending[k].record && key != "id" ==> out[k][key] == pending[k].record[key]
  {
    ParseSyntheticId(pending[k].parent, k + 1);
  }

  /** No two output records share an id. */
  lemma StampedIdsDistinct(pending: seq<Tagged>, k1: nat, k2: nat)
    requires k1 < |pending| && k2 < |pending| && k1 != k2
    ensures Stamped(pending)[k1]["id"] != Stamped(pending)[k2]["id"]
  {
    StampedIds(pending, k1);
    StampedIds(pending, k2);
  }

  /**
   * The j-th record generated for seed i gets counter TotalEntries(replies[..i])
   * + j + 1: the counter continues from the earlier seeds' records rather than
   * restarting at 1 for each seed.
   */
  lemma OutputAt(seeds: seq<Json>, replies: seq<Reply>, show: Json -> string, i: nat, j: nat)
    requires |seeds| == |replies|
    requires Pending(seeds, replies, show).Some?
    requires i < |seeds| && j < EntryCount(replies[i])
    ensures SeedIdText(seeds[i], show).Some? && Entries(Variations(replies[i])).Some?
    ensures var out := Stamped(Pending(seeds, replies, show).value);
      var k := TotalEntries(replies[..i]) + j;
      k < |out| &&
      out[k] == Stamp(Entries(Variations(replies[i])).value[j], SeedIdText(seeds[i], show).value, k + 1)
  {
    PendingAt(seeds, replies, show, i, j);
  }

  /**
   * A seed that contributes nothing (its call failed, or its reply listed no
   * entries) leaves the run exactly as if it were not there: later seeds are
   * still processed and their counters are unaffected.
   */
  lemma {:induction false} SilentSeedIrrelevant(seeds: seq<Json>, replies: seq<Reply>, show: Json -> string, i: nat)
    requires |seeds| == |replies| && i < |seeds|
    requires SeedBatch(seeds[i], replies[i], show) == Some([])
    ensures Pending(seeds, replies, show) ==
            Pending(seeds[..i] + seeds[i + 1..], replies[..i] + replies[i + 1..], show)
    decreases |seeds|
  {
    var n := |seeds| - 1;
    if i == n {
      assert seeds[..i] + seeds[i + 1..] == seeds[..n];
      assert replies[..i] + replies[i + 1..] == replies[..n];
      match Pending(seeds[..n], replies[..n], show)
      case None =>
      case Some(done) => assert done + [] == done;
    } else {
      var s' := seeds[..i] + seeds[i + 1..];
      var r' := replies[..i] + replies[i + 1..];
      assert s'[..|s'| - 1] == seeds[..n][..i] + seeds[..n][i + 1..];
      assert r'[..|r'| - 1] == replies[..n][..i] + replies[..n][i + 1..];
      assert s'[|s'| - 1] == seeds[n] && r'[|r'| - 1] == replies[n];
      assert seeds[..n][i] == seeds[i] && replies[..n][i] == replies[i];
      SilentSeedIrrelevant(seeds[..n], replies[..n], show, i);
    }
  }

  /** Output position k is entry j of seed i: it follows the entries of all seeds before i. */
  predicate FromSeed(replies: seq<Reply>, k: nat, i: nat, j: nat) {
    i < |replies| && j < EntryCount(replies[i]) && k == TotalEntries(replies[..i]) + j
  }

  /** Every output position comes from some seed and some entry of that seed's list. */
  lemma {:induction false} PendingOrigin(seeds: seq<Json>, replies: seq<Reply>, show: Json -> string, k: nat)
    requires |seeds| == |replies|
    requires Pending(seeds, replies, show).Some?
    requires k < |Pending(seeds, replies, show).value|
    ensures exists i: nat, j: nat :: FromSeed(replies, k, i, j)
    decreases |seeds|
  {
    var n := |seeds| - 1;
    var done := Pending(seeds[..n], replies[..n], show).value;
    PendingLength(seeds[..n], replies[..n], show);
    SeedBatchSize(seeds[n], replies[n], show);
    if k < |done| {
      PendingOrigin(seeds[..n], replies[..n], show, k);
      var i: nat, j: nat :| FromSeed(replies[..n], k, i, j);
      assert replies[..n][..i] == replies[..i] && replies[..n][i] == replies[i];
      assert FromSeed(replies, k, i, j);
    } else {
      assert FromSeed(replies, k, n, k - |done|);
    }
  }

  /**
   * Every output id is traceable to an input seed: it parses back to the id
   * text of some seed and to the record's 1-based position.
   */
  lemma OutputOrigin(seeds: seq<Json>, replies: seq<Reply>, show: Json -> string, k: nat)
    requires |seeds| == |replies|
    requires Pending(seeds, replies, show).Some?
    requires k < |Pending(seeds, replies, show).value|
    ensures var out := Stamped(Pending(seeds, replies, show).value);
      && "id" in out[k] && out[k]["id"].JString?
      && exists i :: 0 <= i < |seeds| && SeedIdText(seeds[i], show).Some? &&
           ParseId(out[k]["id"].s) == Some((SeedIdText(seeds[i], show).value, k + 1))
  {
    var pending := Pending(seeds, replies, show).value;
    PendingOrigin(seeds, replies, show, k);
    var i: nat, j: nat :| FromSeed(replies, k, i, j);
    PendingAt(seeds, replies, show, i, j);
    StampedIds(pending, k);
  }
}
