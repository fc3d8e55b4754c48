// src/autobench/public_errors.py, scrub_run_summary and scrub_records: copies for the public bucket of
// dicts that the authenticated API goes on serving as they are.
module Scrub {
  import opened Wrappers
  import opened PyStrings
  import opened PublicErrors

  // What a JSON-like dict holds; lists and dicts are shared by reference.
  datatype Value = Null | Text(text: string) | Data(data: int) | AList(list: PyList) | ADict(dict: Dict)

  class PyList {
    var items: seq<Value>

    constructor (items: seq<Value>)
      ensures this.items == items
    {
      this.items := items;
    }
  }

  class Dict {
    var fields: map<string, Value>

    // A shallow copy.
    constructor Copy(other: Dict)
      ensures fields == other.fields
    {
      fields := other.fields;
    }
  }

  const ERROR := "error"
  const RESULTS := "results"
  const STATUS := "status_message"

  // ---------------------------------------------------------------- one field

  function Message(v: Value): Option<string> {
    if v.Text? then Some(v.text) else None
  }

  // public_error of the value of an error field; a blank error becomes null.
  function Published(v: Value, hash: Hash): Value {
    var p := PublicError(Message(v), hash);
    if p.Some? then Text(p.value) else Null
  }

  // The same for a status message, which stays a string.
  function PublishedStatus(v: Value, hash: Hash): Value {
    var p := PublicError(Message(v), hash);
    Text(if p.Some? then p.value else "")
  }

  type Fields = map<string, Value>

  // What goes out is null exactly for a message with nothing in it, and else reads back as the
  // category and the shape of the message.
  lemma PublishedReadsBack(v: Value, hash: Hash)
    requires v.Null? || v.Text?
    ensures Published(v, hash).Null? <==> v.Null? || Blank(v.text)
    ensures v.Text? && !Blank(v.text) ==>
        ParseScrubbed(Message(Published(v, hash))) == Some((Slug(Classify(Some(v.text)).value), hash(v.text)))
    ensures PublishedStatus(v, hash) == if Published(v, hash).Null? then Text("") else Published(v, hash)
  {
    if v.Text? && !Blank(v.text) {
      ScrubRoundTrip(v.text, hash);
    }
  }

  // What a message goes out as: null if there is nothing in it, else something that reads as its
  // category and its shape.
  predicate Classified(v: Value, r: Value, hash: Hash) {
    if v.Null? || (v.Text? && All(v.text, SPACE)) then r == Null
    else
      && v.Text? && r.Text?
      && ParseScrubbed(Some(r.text)) == Some((Slug(FirstOf(CAUSES, v.text, CLAIMS)), hash(v.text)))
  }

  lemma PublishedIsClassified(v: Value, hash: Hash)
    requires v.Null? || v.Text?
    ensures Classified(v, Published(v, hash), hash)
    ensures v.Text? && !All(v.text, SPACE) ==> Classified(v, PublishedStatus(v, hash), hash)
    ensures v.Text? && All(v.text, SPACE) ==> PublishedStatus(v, hash) == Text("")
  {
    if v.Text? {
      BlankIff(v.text);
      PublishedReadsBack(v, hash);
    }
  }

  // The same dict but for one field.
  predicate OnlyReplaced(before: Fields, after: Fields, field: string) {
    after.Keys == before.Keys && forall k :: k in before && k != field ==> after[k] == before[k]
  }

  // ---------------------------------------------------------------- dicts in a list

  // The fields of the copy of a dict, or None when the dict itself is passed on.
  type Publisher = Fields -> Option<Fields>

  function ErrorPublished(hash: Hash): Publisher {
    (f: Fields) => if ERROR in f then Some(f[ERROR := Published(f[ERROR], hash)]) else None
  }

  function StatusPublished(hash: Hash): Publisher {
    (f: Fields) =>
      if STATUS in f && f[STATUS].Text? && f[STATUS].text != ""
      then Some(f[STATUS := PublishedStatus(f[STATUS], hash)]) else None
  }

  type FieldsTest = Fields -> bool

  // public_error takes a string or null.
  const ERROR_TYPED: FieldsTest := (f: Fields) => ERROR in f ==> f[ERROR].Null? || f[ERROR].Text?
  const STATUS_TYPED: FieldsTest := (f: Fields) => STATUS in f ==> f[STATUS].Null? || f[STATUS].Text?

  predicate ItemTyped(v: Value, typed: FieldsTest)
    reads if v.ADict? then {v.dict} else {}
  {
    v.ADict? ==> typed(v.dict.fields)
  }

  function Dicts(items: seq<Value>): set<object> {
    set v | v in items && v.ADict? :: v.dict as object
  }

  // An item is passed on as it is, or as another dict with the published fields.
  predicate ItemScrubbed(v: Value, r: Value, publish: Publisher)
    reads if v.ADict? then {v.dict} else {}, if r.ADict? then {r.dict} else {}
  {
    if v.ADict? && publish(v.dict.fields).Some?
    then r.ADict? && r.dict != v.dict && r.dict.fields == publish(v.dict.fields).value
    else r == v
  }

  predicate ItemsScrubbed(items: seq<Value>, copies: seq<Value>, publish: Publisher)
    reads Dicts(items), Dicts(copies)
  {
    && |copies| == |items|
    && forall i :: 0 <= i < |items| ==> ItemScrubbed(items[i], copies[i], publish)
  }

  // Both scrubbers copy the dicts they rewrite, and only those.
  method CopyItem(v: Value, publish: Publisher) returns (r: Value)
    ensures ItemScrubbed(v, r, publish)
    ensures r == v || (r.ADict? && fresh(r.dict))
  {
    if v.ADict? {
      var fields := publish(v.dict.fields);
      if fields.Some? {
        var copy := new Dict.Copy(v.dict);
        copy.fields := fields.value;
        return ADict(copy);
      }
    }
    return v;
  }

  method CopyItems(items: seq<Value>, publish: Publisher) returns (out: seq<Value>)
    ensures ItemsScrubbed(items, out, publish)
    ensures forall i :: 0 <= i < |items| ==> out[i] == items[i] || (out[i].ADict? && fresh(out[i].dict))
  {
    out := [];
    for i := 0 to |items|
      invariant |out| == i
      invariant forall j :: 0 <= j < i ==> ItemScrubbed(items[j], out[j], publish)
      invariant forall j :: 0 <= j < i ==> out[j] == items[j] || (out[j].ADict? && fresh(out[j].dict))
    {
      var r := CopyItem(items[i], publish);
      out := out + [r];
    }
  }

  // ---------------------------------------------------------------- run summaries

  // A result without an error goes out as it is; of one with an error goes out another dict, which
  // differs in the error only and has it classified.
  ghost predicate ResultPublished(v: Value, r: Value, hash: Hash)
    reads if v.ADict? then {v.dict} else {}, if r.ADict? then {r.dict} else {}
  {
    if v.ADict? && "error" in v.dict.fields
    then && r.ADict? && r.dict != v.dict && OnlyReplaced(v.dict.fields, r.dict.fields, "error")
         && (v.dict.fields["error"].Null? || v.dict.fields["error"].Text? ==>
               Classified(v.dict.fields["error"], r.dict.fields["error"], hash))
    else r == v
  }

  predicate HasResults(f: Fields) {
    "results" in f && f["results"].AList?
  }

  predicate SummaryTyped(summary: Dict)
    reads summary
    reads if HasResults(summary.fields) then {summary.fields[RESULTS].list} else {}
    reads if HasResults(summary.fields) then Dicts(summary.fields[RESULTS].list.items) else {}
  {
    && ERROR_TYPED(summary.fields)
    && (HasResults(summary.fields)
        ==> forall v :: v in summary.fields[RESULTS].list.items ==> ItemTyped(v, ERROR_TYPED))
  }

  ghost predicate ResultsPublished(items: seq<Value>, copies: seq<Value>, hash: Hash)
    reads Dicts(items), Dicts(copies)
  {
    |copies| == |items| && forall i :: 0 <= i < |items| ==> ResultPublished(items[i], copies[i], hash)
  }

  lemma ScrubbedIsPublished(items: seq<Value>, copies: seq<Value>, hash: Hash)
    requires ItemsScrubbed(items, copies, ErrorPublished(hash))
    ensures ResultsPublished(items, copies, hash)
  {
    forall i | 0 <= i < |items| ensures ResultPublished(items[i], copies[i], hash) {
      assert ItemScrubbed(items[i], copies[i], ErrorPublished(hash));
      if items[i].ADict? && ERROR in items[i].dict.fields {
        var e := items[i].dict.fields[ERROR];
        if e.Null? || e.Text? {
          PublishedIsClassified(e, hash);
        }
      }
    }
  }

  // The list of results is not written: another list holds the copies.
  method ScrubResults(results: PyList, hash: Hash) returns (out: PyList)
    ensures fresh(out) && ItemsScrubbed(results.items, out.items, ErrorPublished(hash))
    ensures ResultsPublished(results.items, out.items, hash)
    ensures forall d :: d in Dicts(out.items) ==> d in Dicts(results.items) || fresh(d)
  {
    var scrubbed := CopyItems(results.items, ErrorPublished(hash));
    out := new PyList(scrubbed);
    ScrubbedIsPublished(results.items, out.items, hash);
  }

  method ReplaceError(out: Dict, hash: Hash)
    requires ERROR_TYPED(out.fields)
    modifies out
    ensures OnlyReplaced(old(out.fields), out.fields, ERROR)
    ensures ERROR in old(out.fields) ==>
      && out.fields[ERROR] == Published(old(out.fields)[ERROR], hash)
      && Classified(old(out.fields)[ERROR], out.fields[ERROR], hash)
  {
    if ERROR in out.fields {
      PublishedIsClassified(out.fields[ERROR], hash);
      out.fields := out.fields[ERROR := Published(out.fields[ERROR], hash)];
    }
  }

  // The results of a copy that is not among them are replaced by the list of their copies.
  method ReplaceResults(out: Dict, hash: Hash)
    requires HasResults(out.fields) ==> out !in Dicts(out.fields[RESULTS].list.items)
    modifies out
    ensures OnlyReplaced(old(out.fields), out.fields, RESULTS)
    ensures if HasResults(old(out.fields))
            then && out.fields[RESULTS].AList? && fresh(out.fields[RESULTS].list)
                 && ItemsScrubbed(old(out.fields)[RESULTS].list.items, out.fields[RESULTS].list.items,
                                  ErrorPublished(hash))
                 && ResultsPublished(old(out.fields)[RESULTS].list.items, out.fields[RESULTS].list.items, hash)
            else out.fields == old(out.fields)
  {
    if RESULTS in out.fields && out.fields[RESULTS].AList? {
      var results := out.fields[RESULTS].list;
      var list := ScrubResults(results, hash);
      assert out !in Dicts(list.items);
      out.fields := out.fields[RESULTS := AList(list)];
    }
  }

  // Nothing that exists is written. The copy has the summary's keys; it differs in its error, and
  // in a list of results that is new and differs in the errors of its dicts.
  method ScrubRunSummary(summary: Dict, hash: Hash) returns (out: Dict)
    requires SummaryTyped(summary)
    ensures fresh(out) && out.fields.Keys == summary.fields.Keys
    ensures forall k :: k in summary.fields && k != ERROR && k != RESULTS ==> out.fields[k] == summary.fields[k]
    ensures ERROR in summary.fields ==> out.fields[ERROR] == Published(summary.fields[ERROR], hash)
    ensures "error" in summary.fields ==> Classified(summary.fields["error"], out.fields["error"], hash)
    ensures if HasResults(summary.fields)
            then && out.fields[RESULTS].AList? && fresh(out.fields[RESULTS].list)
                 && ItemsScrubbed(summary.fields[RESULTS].list.items, out.fields[RESULTS].list.items,
                                  ErrorPublished(hash))
                 && ResultsPublished(summary.fields[RESULTS].list.items, out.fields[RESULTS].list.items, hash)
            else RESULTS in summary.fields ==> out.fields[RESULTS] == summary.fields[RESULTS]
  {
    out := new Dict.Copy(summary);
    ReplaceError(out, hash);
    assert RESULTS != ERROR;
    ReplaceResults(out, hash);
  }

  // ---------------------------------------------------------------- trace records

  // A record without a status message, or an empty one, goes out as it is; of any other goes out
  // another dict, which differs in the message only: empty if there was nothing in it, else classified.
  ghost predicate RecordPublished(v: Value, r: Value, hash: Hash)
    reads if v.ADict? then {v.dict} else {}, if r.ADict? then {r.dict} else {}
  {
    if v.ADict? && "status_message" in v.dict.fields && v.dict.fields["status_message"] !in {Null, Text("")}
    then && r.ADict? && r.dict != v.dict && OnlyReplaced(v.dict.fields, r.dict.fields, "status_message")
         && var before, after := v.dict.fields["status_message"], r.dict.fields["status_message"];
            before.Text?
            && (if All(before.text, SPACE) then after == Text("") else Classified(before, after, hash))
    else r == v
  }

  lemma RecordIsPublished(v: Value, r: Value, hash: Hash)
    requires ItemTyped(v, STATUS_TYPED) && ItemScrubbed(v, r, StatusPublished(hash))
    ensures RecordPublished(v, r, hash)
  {
    if v.ADict? && STATUS in v.dict.fields && v.dict.fields[STATUS] !in {Null, Text("")} {
      PublishedIsClassified(v.dict.fields[STATUS], hash);
    }
  }

  method ScrubRecords(records: seq<Value>, hash: Hash) returns (out: seq<Value>)
    requires forall v :: v in records ==> ItemTyped(v, STATUS_TYPED)
    ensures ItemsScrubbed(records, out, StatusPublished(hash))
    ensures forall i :: 0 <= i < |records| ==> RecordPublished(records[i], out[i], hash)
    ensures forall i :: 0 <= i < |records| ==> out[i] == records[i] || (out[i].ADict? && fresh(out[i].dict))
  {
    out := CopyItems(records, StatusPublished(hash));
    forall i | 0 <= i < |records| ensures RecordPublished(records[i], out[i], hash) {
      assert records[i] in records && ItemScrubbed(records[i], out[i], StatusPublished(hash));
      RecordIsPublished(records[i], out[i], hash);
    }
  }
}
