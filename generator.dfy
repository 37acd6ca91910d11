/**
 * What generate_variations hands back to the assembly loop. The call to the
 * text-generation service and the decoding of its reply are outside the
 * model: a call is represented by its outcome, either a failure (any
 * exception raised by the service call or by json.loads of its content) or
 * the decoded JSON value of the reply.
 */
module Generator {
  import opened Wrappers
  import opened Json

  datatype Reply = CallFailed | Received(data: Json)

  /**
   * generate_variations: data.get("new_entries", []) inside the try block. A
   * failed call, a reply that is not an object (its missing .get raises and
   * is caught) or an object without "new_entries" all give the empty list;
   * otherwise the value under "new_entries" is returned as it is, whatever
   * its shape.
   */
  function Variations(reply: Reply): Json {
    match reply
    case CallFailed => JArray([])
    case Received(data) =>
      if data.JObject? && "new_entries" in data.fields then data.fields["new_entries"] else JArray([])
  }

  /** The records of a list of JSON values, or None when one of them is not an object. */
  function Objects(items: seq<Json>): (r: Option<seq<Record>>)
    ensures r.Some? <==> forall i :: 0 <= i < |items| ==> items[i].JObject?
    ensures r.Some? ==> |r.value| == |items| && forall i :: 0 <= i < |items| ==> items[i] == JObject(r.value[i])
  {
    if items == [] then Some([])
    else
      match Objects(items[..|items| - 1])
      case None => None
      case Some(init) =>
        match items[|items| - 1]
        case JObject(fields) => Some(init + [fields])
        case _ => None
  }

  /**
   * How the loop `for v in variations: v['id'] = ...` in main treats a value:
   * a list is walked element by element and every element must be a dict;
   * an empty dict or an empty string is iterable and yields nothing; any
   * other value (null, a number, a boolean, a non-empty dict or string)
   * raises a TypeError outside any try block, which ends the run. None
   * stands for that crash.
   */
  function Entries(variations: Json): (r: Option<seq<Record>>)
    ensures r.Some? <==>
      || (variations.JArray? && forall i :: 0 <= i < |variations.items| ==> variations.items[i].JObject?)
      || variations == JObject(map[])
      || variations == JString("")
    ensures r.Some? && variations.JArray? ==>
      |r.value| == |variations.items| &&
      forall i :: 0 <= i < |variations.items| ==> variations.items[i] == JObject(r.value[i])
    ensures r.Some? && !variations.JArray? ==> r.value == []
  {
    match variations
    case JArray(items) => Objects(items)
    case JObject(fields) => if fields == map[] then Some([]) else None
    case JString(s) => if s == "" then Some([]) else None
    case _ => None
  }

  /**
   * A call that fails, a reply that is not an object, and a reply without
   * "new_entries" are all indistinguishable from a reply listing no entries.
   */
  lemma SilentReplyHasNoEntries(reply: Reply)
    requires reply.CallFailed? || !reply.data.JObject? || "new_entries" !in reply.data.fields
    ensures Entries(Variations(reply)) == Some([])
  {
  }

  /** A reply whose "new_entries" is a list of objects provides exactly those objects, in order. */
  lemma ListedEntries(reply: Reply, items: seq<Json>)
    requires reply.Received? && reply.data.JObject?
    requires "new_entries" in reply.data.fields && reply.data.fields["new_entries"] == JArray(items)
    requires forall i :: 0 <= i < |items| ==> items[i].JObject?
    ensures Entries(Variations(reply)).Some?
    ensures |Entries(Variations(reply)).value| == |items|
    ensures forall i :: 0 <= i < |items| ==> JObject(Entries(Variations(reply)).value[i]) == items[i]
  {
  }
}
