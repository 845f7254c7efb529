/** The migration loop (glue_job.py lines 186-261) and the job's flow from
    the per-locale query results to the published entries. Creating, saving
    and publishing an entry through the management API (lines 256-261) is
    modelled as appending it to the sequence of published entries. */
module Migration {
  import opened Wrappers
  import opened Json
  import opened Merge
  import opened Remap
  import opened Entries

  /** `e` is the entry lines 192-252 build for the merged record `locales`. */
  ghost predicate EntryFor(t: Transforms, modelName: string, locales: map<string, Record>,
                           convert: Converter, lookup: Lookup, e: Entry) {
    e.contentTypeId == modelName && BuiltOver(t, locales, locales.Keys, convert, lookup, e.fields)
  }

  /** The record of slug `s` builds without raising. */
  ghost predicate Builds(t: Transforms, data: Merged, convert: Converter, lookup: Lookup, s: string)
    requires s in data.byLocale
  {
    NoFailureOver(t, data.byLocale[s], data.byLocale[s].Keys, convert, lookup)
  }

  /** The entry for the record of slug `s` (lines 192-252). */
  method BuildRecord(t: Transforms, modelName: string, data: Merged, s: string, convert: Converter, lookup: Lookup)
    returns (r: Result<Entry, Fault>)
    requires s in data.byLocale
    ensures r.Ok? <==> Builds(t, data, convert, lookup, s)
    ensures r.Ok? ==> EntryFor(t, modelName, data.byLocale[s], convert, lookup, r.value)
  {
    r := BuildEntry(t, modelName, data.byLocale[s], convert, lookup);
  }

  /** The loop of lines 188-261: one entry per merged record, in the
      dictionary's key order, each published as soon as it is built. The
      first record that raises stops the job; what was published before it
      stays published. */
  method Migrate(t: Transforms, modelName: string, data: Merged, convert: Converter, lookup: Lookup)
    returns (published: seq<Entry>, failure: Option<Fault>)
    requires data.Valid()
    ensures |published| <= |data.slugs|
    ensures forall i :: 0 <= i < |published| ==>
      EntryFor(t, modelName, data.byLocale[data.slugs[i]], convert, lookup, published[i])
    ensures failure.None? <==> forall s :: s in data.byLocale ==> Builds(t, data, convert, lookup, s)
    ensures failure.None? ==> |published| == |data.slugs|
    ensures failure.Some? ==>
      && |published| < |data.slugs|
      && (forall i :: 0 <= i < |published| ==> Builds(t, data, convert, lookup, data.slugs[i]))
      && !Builds(t, data, convert, lookup, data.slugs[|published|])
  {
    published := [];
    var i := 0;
    while i < |data.slugs|
      invariant i <= |data.slugs| && |published| == i
      invariant PublishedUpTo(t, modelName, data, convert, lookup, published)
    {
      var entry := BuildRecord(t, modelName, data, data.slugs[i], convert, lookup);
      if entry.Err? {
        return published, Some(entry.error);
      }
      PublishedGrows(t, modelName, data, convert, lookup, published, entry.value);
      published := published + [entry.value];
      i := i + 1;
    }
    failure := None;
    AllPublished(t, modelName, data, convert, lookup, published);
  }

  /** The first `|published|` records have been built, and `published`
      holds their entries in key order. */
  ghost predicate PublishedUpTo(t: Transforms, modelName: string, data: Merged, convert: Converter, lookup: Lookup,
                                published: seq<Entry>)
    requires data.Valid()
  {
    && |published| <= |data.slugs|
    && (forall k :: 0 <= k < |published| ==>
          EntryFor(t, modelName, data.byLocale[data.slugs[k]], convert, lookup, published[k]))
    && (forall k :: 0 <= k < |published| ==> Builds(t, data, convert, lookup, data.slugs[k]))
  }

  /** Publishing the next record's entry extends what has been published. */
  lemma PublishedGrows(t: Transforms, modelName: string, data: Merged, convert: Converter, lookup: Lookup,
                       published: seq<Entry>, e: Entry)
    requires data.Valid()
    requires PublishedUpTo(t, modelName, data, convert, lookup, published) && |published| < |data.slugs|
    requires Builds(t, data, convert, lookup, data.slugs[|published|])
    requires EntryFor(t, modelName, data.byLocale[data.slugs[|published|]], convert, lookup, e)
    ensures PublishedUpTo(t, modelName, data, convert, lookup, published + [e])
  {
    var next := published + [e];
    forall k | 0 <= k < |next|
      ensures EntryFor(t, modelName, data.byLocale[data.slugs[k]], convert, lookup, next[k])
    {
      if k < |published| {
        assert next[k] == published[k];
      }
    }
  }

  /** Once every slug in key order has built, every record of the data has. */
  lemma AllPublished(t: Transforms, modelName: string, data: Merged, convert: Converter, lookup: Lookup,
                     published: seq<Entry>)
    requires data.Valid()
    requires PublishedUpTo(t, modelName, data, convert, lookup, published) && |published| == |data.slugs|
    ensures forall s :: s in data.byLocale ==> Builds(t, data, convert, lookup, s)
  {
    forall s | s in data.byLocale ensures Builds(t, data, convert, lookup, s) {
      var k :| 0 <= k < |data.slugs| && data.slugs[k] == s;
    }
  }

  /** Why the job stopped. */
  datatype JobError =
    | MergeFailed(merge: MergeError)
    | BuildFailed(fault: Fault)

  /** The job's flow: merge the locales' query results (lines 130-153),
      remap the fields (161-172), then build and publish one entry per
      record (181-261). `merged` and `remapped` are the intermediate
      dictionaries. */
  method Run(locales: seq<string>, query: string -> seq<Record>, t: Transforms, modelName: string,
             convert: Converter, lookup: Lookup)
    returns (published: seq<Entry>, failure: Option<JobError>, ghost merged: Merged, ghost remapped: Merged)
    ensures MergeFails(locales, query) <==> failure.Some? && failure.value.MergeFailed?
    ensures MergeFails(locales, query) ==> published == []
    ensures !MergeFails(locales, query) ==>
      && MergedFrom(locales, query, merged)
      && RemappedFrom(merged, t.remapFields, remapped)
      && remapped.Valid()
      && |published| <= |remapped.slugs|
      && (forall i :: 0 <= i < |published| ==>
            EntryFor(t, modelName, remapped.byLocale[remapped.slugs[i]], convert, lookup, published[i]))
      && (failure.None? <==> forall s :: s in remapped.byLocale ==> Builds(t, remapped, convert, lookup, s))
    ensures !MergeFails(locales, query) && failure.Some? ==>
      && |published| < |remapped.slugs|
      && (forall i :: 0 <= i < |published| ==> Builds(t, remapped, convert, lookup, remapped.slugs[i]))
      && !Builds(t, remapped, convert, lookup, remapped.slugs[|published|])
    ensures failure.None? ==> |published| == |SeedOrder(locales, query)|
  {
    var m := MergeLocales(locales, query);
    if m.Err? {
      return [], Some(MergeFailed(m.error)), Merged([], map[]), Merged([], map[]);
    }
    var data := RemapFields(m.value, t.remapFields);
    merged, remapped := m.value, data;
    var fault;
    published, fault := Migrate(t, modelName, data, convert, lookup);
    failure := if fault.Some? then Some(BuildFailed(fault.value)) else None;
  }
}
