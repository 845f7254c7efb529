/** The locale merge (glue_job.py lines 130-153): the per-locale query results
    are regrouped into one dictionary `slug -> locale -> record`. The keyspace
    is seeded once, by the first locale whose result is non-empty; every
    locale then writes its records under their slugs, and a slug that was not
    seeded makes the write raise. */
module Merge {
  import opened Wrappers
  import opened Json

  /** The merged source data: `byLocale[slug][locale]` is that locale's
      record, and `slugs` is the dictionary's key order (the order in which
      the keyspace was seeded, which is the order records are migrated in). */
  datatype Merged = Merged(slugs: seq<string>, byLocale: map<string, map<string, Record>>) {

    /** The key order lists every key of the dictionary exactly once. */
    ghost predicate Valid() {
      && (forall s :: s in slugs <==> s in byLocale)
      && (forall i, j :: 0 <= i < j < |slugs| ==> slugs[i] != slugs[j])
    }
  }

  /** Which locale's records raised, and what was raised. */
  datatype MergeError = MergeError(locale: string, fault: Fault)

  /** `record['slug']` used as a dictionary key. */
  function SlugKey(rec: Record): (r: Result<string, Fault>)
    ensures r.Ok? <==> "slug" in rec && rec["slug"].JStr?
    ensures r.Ok? ==> r.value == rec["slug"].s
    ensures "slug" !in rec ==> r == Err(KeyMissing("slug"))
    ensures "slug" in rec && !rec["slug"].JStr? ==> r == Err(SlugNotString(rec["slug"]))
  {
    if "slug" !in rec then Err(KeyMissing("slug"))
    else match rec["slug"]
      case JStr(s) => Ok(s)
      case other => Err(SlugNotString(other))
  }

  /** The index of the first locale whose query result is non-empty; it is
      the one that finds the dictionary empty and seeds the keyspace.
      `|locales|` when every result is empty. */
  function SeedIndex(locales: seq<string>, query: string -> seq<Record>): (k: nat)
    ensures k <= |locales|
    ensures forall j :: 0 <= j < k ==> query(locales[j]) == []
    ensures k < |locales| ==> query(locales[k]) != []
    decreases |locales|
  {
    if locales == [] then 0
    else if query(locales[0]) != [] then 0
    else 1 + SeedIndex(locales[1..], query)
  }

  /** The string slugs that occur among `records`. */
  function Slugs(records: seq<Record>): set<string> {
    if records == [] then {}
    else
      Slugs(records[..|records| - 1]) +
      match SlugKey(records[|records| - 1])
      case Ok(s) => {s}
      case Err(_) => {}
  }

  /** A slug is in `Slugs(records)` exactly when some record carries it. */
  lemma {:induction false} SlugsMembers(records: seq<Record>, s: string)
    ensures s in Slugs(records) <==> exists j :: 0 <= j < |records| && SlugKey(records[j]) == Ok(s)
  {
    if records != [] {
      var init := records[..|records| - 1];
      SlugsMembers(init, s);
      assert forall j :: 0 <= j < |init| ==> init[j] == records[j];
    }
  }

  /** The slugs of `records` in order of first occurrence: the order in
      which the seeding loop inserts them as dictionary keys. */
  function SlugOrder(records: seq<Record>): seq<string> {
    if records == [] then []
    else
      var prior := SlugOrder(records[..|records| - 1]);
      match SlugKey(records[|records| - 1])
      case Ok(s) => if s in prior then prior else prior + [s]
      case Err(_) => prior
  }

  /** The seeding order lists each slug of the records exactly once, and
      the order of every prefix of the records is a prefix of it: a slug is
      placed when it first occurs, and later records only append. */
  lemma {:induction false} SlugOrderLists(records: seq<Record>)
    ensures forall s :: s in SlugOrder(records) <==> s in Slugs(records)
    ensures forall i, j :: 0 <= i < j < |SlugOrder(records)| ==> SlugOrder(records)[i] != SlugOrder(records)[j]
    ensures forall k :: 0 <= k <= |records| ==> SlugOrder(records[..k]) <= SlugOrder(records)
  {
    if records != [] {
      var init := records[..|records| - 1];
      SlugOrderLists(init);
      forall k | 0 <= k <= |records| ensures SlugOrder(records[..k]) <= SlugOrder(records) {
        if k < |records| {
          assert records[..k] == init[..k];
        } else {
          assert records[..k] == records;
        }
      }
    }
  }

  /** The last record of `records` whose slug is `s`: within one locale a
      later record with the same slug overwrites an earlier one. */
  function LastWithSlug(records: seq<Record>, s: string): Option<Record> {
    if records == [] then None
    else if SlugKey(records[|records| - 1]) == Ok(s) then Some(records[|records| - 1])
    else LastWithSlug(records[..|records| - 1], s)
  }

  /** `LastWithSlug` finds a record exactly when the slug occurs, and what it
      finds is a record of the list carrying that slug, with no later one. */
  lemma {:induction false} LastWithSlugIsLast(records: seq<Record>, s: string)
    ensures LastWithSlug(records, s).Some? <==> s in Slugs(records)
    ensures LastWithSlug(records, s).Some? ==>
      exists j :: 0 <= j < |records| && records[j] == LastWithSlug(records, s).value &&
        SlugKey(records[j]) == Ok(s) &&
        forall j' :: j < j' < |records| ==> SlugKey(records[j']) != Ok(s)
  {
    if records != [] {
      var n := |records| - 1;
      var init := records[..n];
      LastWithSlugIsLast(init, s);
      if SlugKey(records[n]) == Ok(s) {
        assert records[n] == LastWithSlug(records, s).value;
      } else if LastWithSlug(init, s).Some? {
        var j :| 0 <= j < |init| && init[j] == LastWithSlug(init, s).value &&
          SlugKey(init[j]) == Ok(s) &&
          forall j' :: j < j' < |init| ==> SlugKey(init[j']) != Ok(s);
        assert records[j] == init[j];
        assert forall j' :: j < j' < n ==> records[j'] == init[j'];
      }
    }
  }

  /** The keys the first non-empty locale seeds. */
  function SeedKeys(locales: seq<string>, query: string -> seq<Record>): set<string> {
    var k := SeedIndex(locales, query);
    if k < |locales| then Slugs(query(locales[k])) else {}
  }

  /** The key order the first non-empty locale seeds. */
  function SeedOrder(locales: seq<string>, query: string -> seq<Record>): seq<string> {
    var k := SeedIndex(locales, query);
    if k < |locales| then SlugOrder(query(locales[k])) else []
  }

  /** What writing `rec` into a dictionary seeded with `seeded` raises, if anything. */
  function RecordFault(rec: Record, seeded: set<string>): Option<Fault> {
    match SlugKey(rec)
    case Err(f) => Some(f)
    case Ok(s) => if s in seeded then None else Some(KeyMissing(s))
  }

  /** Some record of `records` raises `fault` when written into a dictionary
      seeded with `seeded`. */
  ghost predicate RaisedBy(records: seq<Record>, seeded: set<string>, fault: Fault) {
    exists j :: 0 <= j < |records| && RecordFault(records[j], seeded) == Some(fault)
  }

  /** Some record of some locale has no string slug, or has a slug the
      first non-empty locale did not seed. */
  ghost predicate MergeFails(locales: seq<string>, query: string -> seq<Record>) {
    exists i, j :: 0 <= i < |locales| && 0 <= j < |query(locales[i])| &&
      RecordFault(query(locales[i])[j], SeedKeys(locales, query)).Some?
  }

  /** A record that raises makes the merge fail, and names its locale. */
  lemma FaultAt(locales: seq<string>, query: string -> seq<Record>, i: nat, j: nat, fault: Fault)
    requires i < |locales| && j < |query(locales[i])|
    requires RecordFault(query(locales[i])[j], SeedKeys(locales, query)) == Some(fault)
    ensures MergeFails(locales, query)
    ensures locales[i] in locales && RaisedBy(query(locales[i]), SeedKeys(locales, query), fault)
  {
  }

  /** Line 153 writes under `record['slug']` without a check: a record with
      no slug, or whose slug the seeding locale did not have, makes the whole
      merge fail rather than being dropped. */
  lemma UnseededSlugFails(locales: seq<string>, query: string -> seq<Record>, i: nat, j: nat)
    requires i < |locales| && j < |query(locales[i])|
    ensures "slug" !in query(locales[i])[j] ==> MergeFails(locales, query)
    ensures SlugKey(query(locales[i])[j]).Ok? && SlugKey(query(locales[i])[j]).value !in SeedKeys(locales, query) ==>
      MergeFails(locales, query)
  {
    var fault := RecordFault(query(locales[i])[j], SeedKeys(locales, query));
    if fault.Some? {
      FaultAt(locales, query, i, j, fault.value);
    }
  }

  /** English seeds slug "a"; French also has "c", so the merge fails. */
  lemma UnseededSlugExample(query: string -> seq<Record>)
    requires query("en") == [map["slug" := JStr("a")]]
    requires query("fr") == [map["slug" := JStr("a")], map["slug" := JStr("c")]]
    ensures MergeFails(["en", "fr"], query)
  {
    var locales := ["en", "fr"];
    assert SeedIndex(locales, query) == 0;
    assert Slugs(query("en")) == {"a"} by {
      assert query("en")[..0] == [];
    }
    FaultAt(locales, query, 1, 1, KeyMissing("c"));
  }

  /** Every slot of `m` is filled from the locales in `seen`: the slot of a
      slug and a locale exists exactly when the locale was seen and its result
      holds the slug, and it holds the last record with that slug. */
  ghost predicate SlotsFrom(query: string -> seq<Record>, seen: seq<string>, m: map<string, map<string, Record>>) {
    && (forall s, l :: s in m ==> (l in m[s] <==> l in seen && LastWithSlug(query(l), s).Some?))
    && (forall s, l :: s in m && l in m[s] ==> m[s][l] == LastWithSlug(query(l), s).value)
  }

  /** `m` is the merge of the locales' results: its keyspace is exactly what
      the first non-empty locale seeded, in seeding order, and for every slug
      and every locale whose result holds that slug, `m` holds the last
      such record of that locale, whole, slug field included. */
  ghost predicate MergedFrom(locales: seq<string>, query: string -> seq<Record>, m: Merged) {
    && m.slugs == SeedOrder(locales, query)
    && m.byLocale.Keys == SeedKeys(locales, query)
    && SlotsFrom(query, locales, m.byLocale)
  }

  /** `after` is `before` with every slug of `result` written for `locale`:
      the keys are unchanged, and the locale's slot of a slug holds the last
      record of `result` with that slug; every other slot is as it was. */
  ghost predicate LocaleWritten(before: map<string, map<string, Record>>, locale: string,
                                result: seq<Record>, after: map<string, map<string, Record>>)
  {
    && after.Keys == before.Keys
    && (forall s, l :: s in before ==>
          (l in after[s] <==> l in before[s] || (l == locale && LastWithSlug(result, s).Some?)))
    && (forall s, l :: s in before && l in after[s] ==>
          after[s][l] ==
            if l == locale && LastWithSlug(result, s).Some? then LastWithSlug(result, s).value
            else before[s][l])
  }

  /** Freshly seeded keys satisfy `SlotsFrom` for locales with empty results. */
  lemma EmptySlots(query: string -> seq<Record>, seen: seq<string>, m: map<string, map<string, Record>>)
    requires forall s :: s in m ==> m[s] == map[]
    requires forall l :: l in seen ==> query(l) == []
    ensures SlotsFrom(query, seen, m)
  {
  }

  /** Seeding at locale `i`, which finds the dictionary empty, establishes the
      merge invariant: the slots are empty, and when the result is non-empty
      this is the first non-empty locale and its slugs are the keyspace. */
  lemma SeedEstablishes(locales: seq<string>, query: string -> seq<Record>, i: nat,
                        m: map<string, map<string, Record>>, order: seq<string>)
    requires i < |locales| && i <= SeedIndex(locales, query)
    requires m.Keys == Slugs(query(locales[i])) && order == SlugOrder(query(locales[i]))
    requires forall s :: s in m ==> m[s] == map[]
    requires forall j :: 0 <= j < |query(locales[i])| ==> SlugKey(query(locales[i])[j]).Ok?
    ensures SlotsFrom(query, locales[..i], m)
    ensures query(locales[i]) != [] ==>
      && i == SeedIndex(locales, query)
      && m.Keys == SeedKeys(locales, query) && SeedKeys(locales, query) != {}
      && order == SeedOrder(locales, query)
    ensures query(locales[i]) == [] ==> m == map[] && order == []
  {
    forall l | l in locales[..i] ensures query(l) == [] {
      var j :| 0 <= j < i && locales[j] == l;
    }
    EmptySlots(query, locales[..i], m);
    var result := query(locales[i]);
    if result != [] {
      SlugsMembers(result, SlugKey(result[0]).value);
    }
  }

  /** Writing `locale` extends the locales the slots are filled from by it. */
  lemma WriteExtendsSlots(query: string -> seq<Record>, seen: seq<string>, locale: string,
                          before: map<string, map<string, Record>>, after: map<string, map<string, Record>>)
    requires SlotsFrom(query, seen, before)
    requires LocaleWritten(before, locale, query(locale), after)
    ensures SlotsFrom(query, seen + [locale], after)
  {
  }

  /** No record of the first `i` locales raises against `keys`. */
  ghost predicate NoFaultBefore(locales: seq<string>, query: string -> seq<Record>, i: nat, keys: set<string>)
    requires i <= |locales|
  {
    forall i', j :: 0 <= i' < i && 0 <= j < |query(locales[i'])| ==>
      RecordFault(query(locales[i'])[j], keys).None?
  }

  /** Once every locale is written without a fault, the dictionary is the merge. */
  lemma MergeComplete(locales: seq<string>, query: string -> seq<Record>,
                      m: map<string, map<string, Record>>, order: seq<string>)
    requires MergedUpTo(locales, query, |locales|, m, order)
    ensures !MergeFails(locales, query)
    ensures Merged(order, m).Valid() && MergedFrom(locales, query, Merged(order, m))
  {
    WholePrefix(locales);
    assert SlotsFrom(query, locales, m);
    var k := SeedIndex(locales, query);
    if k < |locales| {
      SlugOrderLists(query(locales[k]));
    }
  }

  /** The prefix of full length is the whole sequence. */
  lemma WholePrefix<T>(s: seq<T>)
    ensures s[..|s|] == s
  {
  }

  /** The prefix of one more element is the prefix followed by that element. */
  lemma PrefixGrows<T>(s: seq<T>, i: nat)
    requires i < |s|
    ensures s[..i + 1] == s[..i] + [s[i]]
  {
  }

  /** A locale whose records do not raise extends `NoFaultBefore` by one. */
  lemma NoFaultExtends(locales: seq<string>, query: string -> seq<Record>, i: nat, keys: set<string>)
    requires i < |locales| && NoFaultBefore(locales, query, i, keys)
    requires forall j :: 0 <= j < |query(locales[i])| ==> RecordFault(query(locales[i])[j], keys).None?
    ensures NoFaultBefore(locales, query, i + 1, keys)
  {
  }

  /** Seeding one more record adds its slug to the keys, and to the key
      order when it is new. */
  lemma SeedStep(done: seq<Record>, rec: Record, s: string)
    requires SlugKey(rec) == Ok(s)
    ensures Slugs(done + [rec]) == Slugs(done) + {s}
    ensures SlugOrder(done + [rec]) ==
      if s in Slugs(done) then SlugOrder(done) else SlugOrder(done) + [s]
  {
    assert (done + [rec])[..|done|] == done;
    SlugOrderLists(done);
  }

  /** The seeding loop of lines 150-151: every record's slug becomes a key
      holding an empty dictionary; a record without a string slug raises. */
  method SeedKeyspace(result: seq<Record>) returns (r: Result<(map<string, map<string, Record>>, seq<string>), Fault>)
    ensures r.Ok? <==> forall j :: 0 <= j < |result| ==> SlugKey(result[j]).Ok?
    ensures r.Ok? ==>
      && r.value.0.Keys == Slugs(result)
      && r.value.1 == SlugOrder(result)
      && forall s :: s in r.value.0 ==> r.value.0[s] == map[]
    ensures r.Err? ==> exists j :: 0 <= j < |result| && SlugKey(result[j]) == Err(r.error)
  {
    var hygraph: map<string, map<string, Record>> := map[];
    var order: seq<string> := [];
    var k := 0;
    while k < |result|
      invariant 0 <= k <= |result|
      invariant hygraph.Keys == Slugs(result[..k]) && order == SlugOrder(result[..k])
      invariant forall s :: s in hygraph ==> hygraph[s] == map[]
      invariant forall j :: 0 <= j < k ==> SlugKey(result[j]).Ok?
    {
      var key := SlugKey(result[k]);
      if key.Err? {
        return Err(key.error);
      }
      PrefixGrows(result, k);
      SeedStep(result[..k], result[k], key.value);
      if key.value !in hygraph {
        order := order + [key.value];
      }
      hygraph := hygraph[key.value := map[]];
      k := k + 1;
    }
    assert result[..|result|] == result;
    r := Ok((hygraph, order));
  }

  /** The writing loop of lines 152-153 for one locale: each record is
      stored whole under its slug and the locale; a record whose slug is
      missing, not a string, or not a key of the dictionary raises. */
  method WriteLocale(hygraph: map<string, map<string, Record>>, locale: string, result: seq<Record>)
    returns (r: Result<map<string, map<string, Record>>, Fault>)
    ensures r.Ok? <==> forall j :: 0 <= j < |result| ==> RecordFault(result[j], hygraph.Keys).None?
    ensures r.Ok? ==> LocaleWritten(hygraph, locale, result, r.value)
    ensures r.Err? ==> exists j :: 0 <= j < |result| && RecordFault(result[j], hygraph.Keys) == Some(r.error)
  {
    var m := hygraph;
    var k := 0;
    while k < |result|
      invariant 0 <= k <= |result|
      invariant LocaleWritten(hygraph, locale, result[..k], m)
      invariant forall j :: 0 <= j < k ==> RecordFault(result[j], hygraph.Keys).None?
    {
      var key := SlugKey(result[k]);
      if key.Err? {
        return Err(key.error);
      }
      if key.value !in m {
        return Err(KeyMissing(key.value));
      }
      assert result[..k + 1] == result[..k] + [result[k]];
      WriteStep(hygraph, locale, result[..k], result[k], key.value, m);
      m := m[key.value := m[key.value][locale := result[k]]];
      k := k + 1;
    }
    assert result[..|result|] == result;
    r := Ok(m);
  }

  /** Storing one more record under its slug extends the written prefix by it. */
  lemma WriteStep(before: map<string, map<string, Record>>, locale: string, done: seq<Record>,
                  rec: Record, s: string, m: map<string, map<string, Record>>)
    requires LocaleWritten(before, locale, done, m)
    requires SlugKey(rec) == Ok(s) && s in m
    ensures LocaleWritten(before, locale, done + [rec], m[s := m[s][locale := rec]])
  {
    assert (done + [rec])[..|done|] == done;
    assert forall t :: LastWithSlug(done + [rec], t) == if t == s then Some(rec) else LastWithSlug(done, t);
  }

  /** What holds of the dictionary after the first `i` locales: it is empty
      until the first non-empty locale, and holds the seeded keys after it;
      its slots are filled from those locales, none of whose records raised. */
  ghost predicate MergedUpTo(locales: seq<string>, query: string -> seq<Record>, i: nat,
                             hygraph: map<string, map<string, Record>>, order: seq<string>)
  {
    && i <= |locales|
    && (i <= SeedIndex(locales, query) ==> hygraph == map[] && order == [])
    && (SeedIndex(locales, query) < i ==>
          && hygraph.Keys == SeedKeys(locales, query) && SeedKeys(locales, query) != {}
          && order == SeedOrder(locales, query))
    && SlotsFrom(query, locales[..i], hygraph)
    && NoFaultBefore(locales, query, i, SeedKeys(locales, query))
  }

  /** One iteration of the merge loop (lines 132-153) for locale `i`: seed
      the keyspace if the dictionary is still empty, then write the locale's
      records. */
  method MergeLocale(ghost locales: seq<string>, query: string -> seq<Record>, i: nat,
                     hygraph: map<string, map<string, Record>>, order: seq<string>, locale: string)
    returns (r: Result<(map<string, map<string, Record>>, seq<string>), Fault>)
    requires i < |locales| && locale == locales[i]
    requires MergedUpTo(locales, query, i, hygraph, order)
    ensures r.Ok? ==> MergedUpTo(locales, query, i + 1, r.value.0, r.value.1)
    ensures r.Err? ==> MergeFails(locales, query) && RaisedBy(query(locale), SeedKeys(locales, query), r.error)
  {
    ghost var keys := SeedKeys(locales, query);
    var m, o := hygraph, order;
    var result := query(locale);
    if m == map[] {
      var seeded := SeedKeyspace(result);
      if seeded.Err? {
        var j :| 0 <= j < |result| && SlugKey(result[j]) == Err(seeded.error);
        FaultAt(locales, query, i, j, seeded.error);
        return Err(seeded.error);
      }
      m, o := seeded.value.0, seeded.value.1;
      SeedEstablishes(locales, query, i, m, o);
    }
    var written := WriteLocale(m, locale, result);
    if written.Err? {
      var j :| 0 <= j < |result| && RecordFault(result[j], m.Keys) == Some(written.error);
      FaultAt(locales, query, i, j, written.error);
      return Err(written.error);
    }
    PrefixGrows(locales, i);
    WriteExtendsSlots(query, locales[..i], locale, m, written.value);
    NoFaultExtends(locales, query, i, keys);
    r := Ok((written.value, o));
  }

  /** The merge loop of lines 130-153, `query` standing for the GraphQL
      query of one locale. */
  method MergeLocales(locales: seq<string>, query: string -> seq<Record>) returns (r: Result<Merged, MergeError>)
    ensures r.Ok? <==> !MergeFails(locales, query)
    ensures r.Ok? ==> r.value.Valid() && MergedFrom(locales, query, r.value)
    ensures r.Err? ==>
      r.error.locale in locales && RaisedBy(query(r.error.locale), SeedKeys(locales, query), r.error.fault)
  {
    var hygraph: map<string, map<string, Record>> := map[];
    var order: seq<string> := [];
    var i := 0;
    while i < |locales|
      invariant MergedUpTo(locales, query, i, hygraph, order)
    {
      var step := MergeLocale(locales, query, i, hygraph, order, locales[i]);
      if step.Err? {
        return Err(MergeError(locales[i], step.error));
      }
      hygraph, order := step.value.0, step.value.1;
      i := i + 1;
    }
    MergeComplete(locales, query, hygraph, order);
    r := Ok(Merged(order, hygraph));
  }
}
