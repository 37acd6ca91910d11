/**
 * main(): load the seeds, return early when there are none, otherwise call
 * the generator once per seed and assemble the output that is then written,
 * one JSON object per line, to the output file.
 *
 * The service, the file system and Python's str() of non-string ids are
 * parameters: `answer(i)` is the outcome of the i-th generator call, `file` the
 * seed file's lines (None if it does not exist), `parse` json.loads of a line.
 */
module Pipeline {
  import opened Wrappers
  import opened Json
  import opened Loader
  import opened Generator
  import opened Assembler

  /** How many variations the prompt asks for; the reply is free to ignore it. */
  const NumVariations: nat := 3

  /** The examples below use string ids only, so Python's str() is never consulted. */
  const NoShow: Json -> string := _ => ""

  datatype RunOutcome =
    | NoSeeds                        // early return: nothing generated, nothing written
    | LoadFailed                     // a malformed seed line: the exception ends the run
    | Crashed                        // an exception in the assembly loop: nothing is written
    | Written(dataset: seq<Record>)  // the records written to the output file, in order

  /** The replies of the first n generator calls. */
  function Calls(answer: nat -> Reply, n: nat): (r: seq<Reply>)
    ensures |r| == n && forall i :: 0 <= i < n ==> r[i] == answer(i)
  {
    seq(n, i requires 0 <= i < n => answer(i))
  }

  method Run(file: Option<seq<string>>, parse: string -> Option<Json>, answer: nat -> Reply, show: Json -> string)
    returns (o: RunOutcome)
    ensures file.None? ==> o == NoSeeds
    ensures o.LoadFailed? <==> Loaded(file, parse).None?
    ensures o.NoSeeds? <==> Loaded(file, parse) == Some([])
    ensures o.Crashed? <==>
      var seeds := Loaded(file, parse);
      seeds.Some? && seeds.value != [] &&
      Pending(seeds.value, Calls(answer, |seeds.value|), show).None?
    ensures o.Written? ==>
      var seeds := Loaded(file, parse).value;
      seeds != [] &&
      o.dataset == Stamped(Pending(seeds, Calls(answer, |seeds|), show).value)
  {
    var loaded := LoadSeeds(file, parse);
    if loaded.None? {
      return LoadFailed;
    }
    var seeds := loaded.value;
    if seeds == [] {
      return NoSeeds;
    }
    var replies := Calls(answer, |seeds|);
    var assembled := Assemble(seeds, replies, show);
    if assembled.None? {
      return Crashed;
    }
    return Written(assembled.value);
  }

  /**
   * The count of written records is set by the service alone: one seed whose
   * reply lists four entries yields four records, more than the
   * NumVariations the prompt asks for per seed.
   */
  lemma NoPerSeedBound()
    ensures var entry := JObject(map["prompt" := JString("open valve 3")]);
      var reply := Received(JObject(map["new_entries" := JArray([entry, entry, entry, entry])]));
      var seeds := [JObject(map["id" := JString("S1")])];
      Pending(seeds, [reply], NoShow).Some? &&
      |Stamped(Pending(seeds, [reply], NoShow).value)| == 4 > |seeds| * NumVariations
  {
    var entry := JObject(map["prompt" := JString("open valve 3")]);
    var reply := Received(JObject(map["new_entries" := JArray([entry, entry, entry, entry])]));
    var seeds := [JObject(map["id" := JString("S1")])];
    assert seeds[..0] == [];
    assert Entries(Variations(reply)).Some?;
    assert |Entries(Variations(reply)).value| == 4;
  }

  /**
   * A seed {"id": "S1", "prompt": "open valve 3"} whose generator lists
   * {"prompt": "open valve 3 now", "kinetic_risk_level": "medium"} yields
   * that record with "id": "S1-S001".
   */
  lemma SingleSeedExample()
    ensures var seed := JObject(map["id" := JString("S1"), "prompt" := JString("open valve 3")]);
      var generated := map["prompt" := JString("open valve 3 now"), "kinetic_risk_level" := JString("medium")];
      var reply := Received(JObject(map["new_entries" := JArray([JObject(generated)])]));
      Pending([seed], [reply], NoShow).Some? &&
      Stamped(Pending([seed], [reply], NoShow).value) ==
        [map["prompt" := JString("open valve 3 now"), "kinetic_risk_level" := JString("medium"),
             "id" := JString("S1-S001")]]
  {
    var seed := JObject(map["id" := JString("S1"), "prompt" := JString("open valve 3")]);
    var generated := map["prompt" := JString("open valve 3 now"), "kinetic_risk_level" := JString("medium")];
    var reply := Received(JObject(map["new_entries" := JArray([JObject(generated)])]));
    assert [seed][..0] == [];
    assert Variations(reply) == JArray([JObject(generated)]);
    var entries := Entries(Variations(reply));
    assert entries.Some?;
    assert |entries.value| == 1 && entries.value[0] == generated;
    assert entries.value == [generated];
    assert SeedIdText(seed, NoShow) == Some("S1");
    assert SyntheticIds.SyntheticId("S1", 1) == "S1-S001" by {
      SyntheticIds.SyntheticIdExamples();
    }
  }

  /**
   * A failing call does not stop the run: with the first of two seeds
   * failing, the second seed's record is still produced, and it is the
   * first record of the output.
   */
  lemma FailedCallExample()
    ensures var s1 := JObject(map["id" := JString("S1")]);
      var s2 := JObject(map["id" := JString("S2")]);
      var reply := Received(JObject(map["new_entries" := JArray([JObject(map[])])]));
      Pending([s1, s2], [CallFailed, reply], NoShow).Some? &&
      Stamped(Pending([s1, s2], [CallFailed, reply], NoShow).value) == [map["id" := JString("S2-S001")]]
  {
    var s1 := JObject(map["id" := JString("S1")]);
    var s2 := JObject(map["id" := JString("S2")]);
    var reply := Received(JObject(map["new_entries" := JArray([JObject(map[])])]));
    assert [s1, s2][..1] == [s1] && [CallFailed, reply][..1] == [CallFailed];
    assert [s1][..0] == [] && [CallFailed][..0] == [];
    assert Variations(reply) == JArray([JObject(map[])]);
    var entries := Entries(Variations(reply));
    assert entries.Some?;
    assert |entries.value| == 1 && entries.value[0] == map[];
    assert entries.value == [map[]];
    assert Variations(CallFailed) == JArray([]);
    assert SeedBatch(s1, CallFailed, NoShow) == Some([]);
    assert Pending([], [], NoShow) == Some([]);
    var none: seq<Tagged> := [];
    assert none + none == none;
    assert Pending([s1], [CallFailed], NoShow) == Some([]);
    assert SyntheticIds.SyntheticId("S2", 1) == "S2-S001" by {
      assert Decimal.ToDecimal(1) == "1";
    }
  }
}
