/** The entry builder of the migration loop (glue_job.py lines 181-252): for
    one merged record it builds the Contentful entry
    `{content_type_id, fields: field -> locale -> value}`, converting
    markdown fields, resolving reference fields to links, reshaping
    location fields and copying all other fields. The markdown converter
    and the delivery-API lookup are parameters. */
module Entries {
  import opened Wrappers
  import opened Json

  /** The model transforms document: the remap table and the three lists of
      fields needing special treatment. */
  datatype Transforms = Transforms(
    remapFields: map<string, string>,
    markdownFields: set<string>,
    referenceFields: set<string>,
    locationFields: set<string>)

  /** The Contentful entry handed to the management API. */
  datatype Entry = Entry(contentTypeId: string, fields: map<string, map<string, Json>>)

  /** Converts a markdown text to the decoded rich-text document; stands for
      `json.loads(convert_markdown(md))` (lines 34-45, 213). */
  type Converter = Json -> Json

  /** The delivery API's `entries({'content_type': t, 'fields.slug[match]': s})`:
      the ids of the entries found, in the order the API returns them; the
      job takes the first (lines 223, 230, 237, 243). */
  type Lookup = (string, Json) -> seq<string>

  datatype FieldKind = Markdown | Reference | Location | Plain

  /** The dispatch of lines 204, 214, 244 and 250: the first of the
      markdown, reference and location lists to name the field decides. */
  function KindOf(t: Transforms, f: string): (k: FieldKind)
    ensures k == Markdown <==> f in t.markdownFields
    ensures k == Reference <==> f !in t.markdownFields && f in t.referenceFields
    ensures k == Location <==> f !in t.markdownFields && f !in t.referenceFields && f in t.locationFields
    ensures k == Plain <==> f !in t.markdownFields && f !in t.referenceFields && f !in t.locationFields
  {
    if f in t.markdownFields then Markdown
    else if f in t.referenceFields then Reference
    else if f in t.locationFields then Location
    else Plain
  }

  /** A Contentful link to the entry with the given id. */
  function Link(id: string): Json {
    JObj(map["sys" := JObj(map["type" := JStr("Link"), "linkType" := JStr("Entry"), "id" := JStr(id)])])
  }

  /** The link for one `{slug: ...}` descriptor of reference field `field`:
      to the first entry of content type `field` with that slug. */
  function LinkFor(field: string, descriptor: Json, lookup: Lookup): (r: Result<Json, Fault>)
    ensures r.Ok? <==>
      descriptor.JObj? && "slug" in descriptor.members && lookup(field, descriptor.members["slug"]) != []
    ensures r.Ok? ==> r.value == Link(lookup(field, descriptor.members["slug"])[0])
    ensures descriptor.JObj? && "slug" in descriptor.members && lookup(field, descriptor.members["slug"]) == [] ==>
      r == Err(NoEntryFound(field, descriptor.members["slug"]))
  {
    var slug :- Subscript(descriptor, "slug");
    var ids := lookup(field, slug);
    if ids == [] then Err(NoEntryFound(field, slug)) else Ok(Link(ids[0]))
  }

  /** The links for a list of descriptors, in order; the first descriptor
      that cannot be resolved decides the error. */
  function LinksFor(field: string, descriptors: seq<Json>, lookup: Lookup): Result<seq<Json>, Fault>
    decreases |descriptors|
  {
    if descriptors == [] then Ok([])
    else
      var links :- LinksFor(field, descriptors[..|descriptors| - 1], lookup);
      var link :- LinkFor(field, descriptors[|descriptors| - 1], lookup);
      Ok(links + [link])
  }

  lemma {:induction false} LinksForSpec(field: string, descriptors: seq<Json>, lookup: Lookup)
    ensures LinksFor(field, descriptors, lookup).Ok? <==>
      forall i :: 0 <= i < |descriptors| ==> LinkFor(field, descriptors[i], lookup).Ok?
    ensures LinksFor(field, descriptors, lookup).Ok? ==>
      && |LinksFor(field, descriptors, lookup).value| == |descriptors|
      && forall i :: 0 <= i < |descriptors| ==>
           LinksFor(field, descriptors, lookup).value[i] == LinkFor(field, descriptors[i], lookup).value
    ensures LinksFor(field, descriptors, lookup).Err? ==>
      exists i :: 0 <= i < |descriptors|
        && LinkFor(field, descriptors[i], lookup) == Err(LinksFor(field, descriptors, lookup).error)
        && forall j :: 0 <= j < i ==> LinkFor(field, descriptors[j], lookup).Ok?
    decreases |descriptors|
  {
    if descriptors != [] {
      var init := descriptors[..|descriptors| - 1];
      LinksForSpec(field, init, lookup);
      assert forall i :: 0 <= i < |init| ==> init[i] == descriptors[i];
    }
  }

  /** A reference field's value: a list of descriptors becomes the list of
      their links, anything else is taken as a single descriptor. */
  function Resolved(field: string, value: Json, lookup: Lookup): Result<Json, Fault> {
    if value.JList? then
      var links :- LinksFor(field, value.items, lookup);
      Ok(JList(links))
    else
      LinkFor(field, value, lookup)
  }

  /** The three cases of a reference field: a list gives a list of the same
      length, in order, of each descriptor's link, and fails at its first
      unresolvable descriptor; anything else is a single descriptor. */
  lemma ResolvedCases(field: string, value: Json, lookup: Lookup)
    ensures value.JList? ==>
      var r := Resolved(field, value, lookup);
      && (r.Ok? <==> forall i :: 0 <= i < |value.items| ==> LinkFor(field, value.items[i], lookup).Ok?)
      && (r.Ok? ==> r.value.JList? && |r.value.items| == |value.items|
                    && forall i :: 0 <= i < |value.items| ==>
                         r.value.items[i] == LinkFor(field, value.items[i], lookup).value)
      && (r.Err? ==> exists i :: 0 <= i < |value.items|
                       && LinkFor(field, value.items[i], lookup) == Err(r.error)
                       && forall j :: 0 <= j < i ==> LinkFor(field, value.items[j], lookup).Ok?)
    ensures !value.JList? ==> Resolved(field, value, lookup) == LinkFor(field, value, lookup)
  {
    if value.JList? {
      LinksForSpec(field, value.items, lookup);
    }
  }

  /** Once a prefix of the descriptors fails, the whole list fails with the
      same error. */
  lemma {:induction false} LinksForFailsEarly(field: string, descriptors: seq<Json>, i: nat, lookup: Lookup)
    requires i <= |descriptors|
    requires LinksFor(field, descriptors[..i], lookup).Err?
    ensures LinksFor(field, descriptors, lookup) == LinksFor(field, descriptors[..i], lookup)
    decreases |descriptors| - i
  {
    if i < |descriptors| {
      var init := descriptors[..|descriptors| - 1];
      assert init[..i] == descriptors[..i];
      LinksForFailsEarly(field, init, i, lookup);
    } else {
      assert descriptors[..i] == descriptors;
    }
  }

  /** The reference resolver of lines 217-243. */
  method ResolveReference(field: string, value: Json, lookup: Lookup) returns (r: Result<Json, Fault>)
    ensures r == Resolved(field, value, lookup)
  {
    if value.JList? {
      var links: seq<Json> := [];
      var i := 0;
      while i < |value.items|
        invariant 0 <= i <= |value.items|
        invariant LinksFor(field, value.items[..i], lookup) == Ok(links)
      {
        var link := LinkFor(field, value.items[i], lookup);
        assert value.items[..i + 1][..i] == value.items[..i];
        if link.Err? {
          LinksForFailsEarly(field, value.items, i + 1, lookup);
          return Err(link.error);
        }
        links := links + [link.value];
        i := i + 1;
      }
      assert value.items[..i] == value.items;
      r := Ok(JList(links));
    } else {
      r := LinkFor(field, value, lookup);
    }
  }

  /** A location value `{latitude, longitude}` as Contentful's `{lat, lon}`. */
  function Relocated(v: Json): (r: Result<Json, Fault>)
    ensures r.Ok? <==> v.JObj? && "latitude" in v.members && "longitude" in v.members
    ensures r.Ok? ==> r.value == JObj(map["lat" := v.members["latitude"], "lon" := v.members["longitude"]])
    ensures !v.JObj? ==> r == Err(NotSubscriptable("latitude"))
    ensures v.JObj? && "latitude" !in v.members ==> r == Err(KeyMissing("latitude"))
    ensures v.JObj? && "latitude" in v.members && "longitude" !in v.members ==> r == Err(KeyMissing("longitude"))
  {
    var lat :- Subscript(v, "latitude");
    var lon :- Subscript(v, "longitude");
    Ok(JObj(map["lat" := lat, "lon" := lon]))
  }

  /** What field `f` with value `v` writes into its locale's slot, `None`
      when the slot is left unwritten. */
  function Transformed(t: Transforms, f: string, v: Json, convert: Converter, lookup: Lookup): Result<Option<Json>, Fault> {
    match KindOf(t, f)
    case Markdown =>
      if !Truthy(v) then Ok(None)
      else
        var md :- Subscript(v, "markdown");
        Ok(Some(convert(md)))
    case Reference =>
      var link :- Resolved(f, v, lookup);
      Ok(Some(link))
    case Location =>
      var loc :- Relocated(v);
      Ok(Some(loc))
    case Plain => Ok(Some(v))
  }

  /** One field of one locale (lines 204-252); only the reference case runs
      a loop of its own, the other cases are the expressions of `Transformed`. */
  method TransformField(t: Transforms, f: string, v: Json, convert: Converter, lookup: Lookup)
    returns (r: Result<Option<Json>, Fault>)
    ensures r == Transformed(t, f, v, convert, lookup)
    ensures r == Ok(None) <==> f in t.markdownFields && !Truthy(v)
    ensures f in t.markdownFields && Truthy(v) ==>
      (r.Ok? <==> v.JObj? && "markdown" in v.members) &&
      (r.Ok? ==> r.value == Some(convert(v.members["markdown"])))
    ensures KindOf(t, f) == Location ==> (r.Ok? ==> r.value == Some(Relocated(v).value))
    ensures KindOf(t, f) == Plain ==> r == Ok(Some(v))
  {
    if KindOf(t, f) == Reference {
      // The reference list is resolved by the append loop of lines 219-232.
      var link := ResolveReference(f, v, lookup);
      r := if link.Err? then Err(link.error) else Ok(Some(link.value));
    } else {
      r := Transformed(t, f, v, convert, lookup);
    }
  }

  /** What the transform of field `f` of `rec` writes into its locale's
      slot: `None` when the record lacks the field, when the transform fails,
      or when it writes nothing. */
  function RecordSlot(t: Transforms, rec: Record, convert: Converter, lookup: Lookup, f: string): Option<Json> {
    if f in rec then
      var r := Transformed(t, f, rec[f], convert, lookup);
      if r.Ok? then r.value else None
    else None
  }

  /** The slot of field `f` for locale `l`. */
  function SlotOf(t: Transforms, locales: map<string, Record>, convert: Converter, lookup: Lookup,
                  f: string, l: string): Option<Json> {
    if l in locales then RecordSlot(t, locales[l], convert, lookup, f) else None
  }

  /** Some locale in `done` has field `f`. */
  ghost predicate HasField(locales: map<string, Record>, done: set<string>, f: string) {
    exists l :: l in done && l in locales && f in locales[l]
  }

  /** `fields` is what lines 197-252 build from the locales in `done`: a key
      for every field any of them has, and under it a slot for each of those
      locales whose transform wrote a value, holding that value. */
  ghost predicate BuiltOver(t: Transforms, locales: map<string, Record>, done: set<string>,
                            convert: Converter, lookup: Lookup, fields: map<string, map<string, Json>>) {
    && (forall f :: f in fields <==> HasField(locales, done, f))
    && (forall f, l :: f in fields ==>
          (l in fields[f] <==> l in done && SlotOf(t, locales, convert, lookup, f, l).Some?))
    && (forall f, l :: f in fields && l in fields[f] ==>
          fields[f][l] == SlotOf(t, locales, convert, lookup, f, l).value)
  }

  /** The transform of field `f` of `rec` fails. */
  predicate FieldFails(t: Transforms, rec: Record, convert: Converter, lookup: Lookup, f: string) {
    f in rec && Transformed(t, f, rec[f], convert, lookup).Err?
  }

  /** No field of a locale in `done` fails to transform. */
  ghost predicate NoFailureOver(t: Transforms, locales: map<string, Record>, done: set<string>,
                                convert: Converter, lookup: Lookup) {
    forall l, f :: l in done && l in locales ==> !FieldFails(t, locales[l], convert, lookup, f)
  }

  /** The slots already present for field `f`, or none on first sight. */
  function SlotsOn(fields: map<string, map<string, Json>>, f: string): map<string, Json> {
    if f in fields then fields[f] else map[]
  }

  /** `slots` with locale `l` written when there is a value for it. */
  function Put(slots: map<string, Json>, l: string, value: Option<Json>): map<string, Json> {
    if value.Some? then slots[l := value.value] else slots
  }

  /** `after` is `before` once the fields `over` of locale `l`'s record have
      been processed: each has a key, made empty only when it is new, and the
      locale's slot is written where the transform gives a value, so every
      other slot, those of earlier locales included, is kept. */
  ghost predicate LocaleAdded(t: Transforms, l: string, rec: Record, over: set<string>, convert: Converter, lookup: Lookup,
                              before: map<string, map<string, Json>>, after: map<string, map<string, Json>>) {
    && after.Keys == before.Keys + (rec.Keys * over)
    && forall f :: f in after ==>
         after[f] == Put(SlotsOn(before, f), l, if f in over then RecordSlot(t, rec, convert, lookup, f) else None)
  }

  /** One field `f` of locale `l` (lines 199-252): its key made on first
      sight, then its slot written when the transform gives a value. */
  method AddField(t: Transforms, l: string, f: string, v: Json, fields: map<string, map<string, Json>>,
                  convert: Converter, lookup: Lookup)
    returns (r: Result<map<string, map<string, Json>>, Fault>)
    ensures r.Ok? <==> Transformed(t, f, v, convert, lookup).Ok?
    ensures r.Ok? ==> r.value == fields[f := Put(SlotsOn(fields, f), l, Transformed(t, f, v, convert, lookup).value)]
    ensures r.Err? ==> Transformed(t, f, v, convert, lookup) == Err(r.error)
  {
    var out := fields;
    if f !in out {
      out := out[f := map[]];
    }
    var slot := TransformField(t, f, v, convert, lookup);
    if slot.Err? {
      return Err(slot.error);
    }
    if slot.value.Some? {
      out := out[f := out[f][l := slot.value.value]];
    }
    r := Ok(out);
  }

  /** Processing one more field of the record keeps the loop invariant. */
  lemma AddStep(t: Transforms, l: string, rec: Record, over: set<string>, f: string, convert: Converter, lookup: Lookup,
                before: map<string, map<string, Json>>, fields: map<string, map<string, Json>>)
    requires f in rec && f !in over
    requires LocaleAdded(t, l, rec, over, convert, lookup, before, fields)
    ensures LocaleAdded(t, l, rec, over + {f}, convert, lookup, before,
                        fields[f := Put(SlotsOn(fields, f), l, RecordSlot(t, rec, convert, lookup, f))])
  {
    assert f in fields ==> SlotsOn(fields, f) == SlotsOn(before, f);
  }

  /** The field loop of lines 198-252 for one locale's record. */
  method AddLocale(t: Transforms, l: string, rec: Record, before: map<string, map<string, Json>>,
                   convert: Converter, lookup: Lookup)
    returns (r: Result<map<string, map<string, Json>>, Fault>)
    ensures r.Ok? <==> forall f :: !FieldFails(t, rec, convert, lookup, f)
    ensures r.Ok? ==> LocaleAdded(t, l, rec, rec.Keys, convert, lookup, before, r.value)
    ensures r.Err? ==> exists f :: f in rec && Transformed(t, f, rec[f], convert, lookup) == Err(r.error)
  {
    var fields := before;
    var todo := rec.Keys;
    while todo != {}
      invariant todo <= rec.Keys
      invariant LocaleAdded(t, l, rec, rec.Keys - todo, convert, lookup, before, fields)
      invariant forall f :: f !in todo ==> !FieldFails(t, rec, convert, lookup, f)
      decreases todo
    {
      var f :| f in todo;
      var added := AddField(t, l, f, rec[f], fields, convert, lookup);
      if added.Err? {
        assert FieldFails(t, rec, convert, lookup, f);
        return Err(added.error);
      }
      AddStep(t, l, rec, rec.Keys - todo, f, convert, lookup, before, fields);
      fields := added.value;
      assert rec.Keys - todo + {f} == rec.Keys - (todo - {f});
      todo := todo - {f};
    }
    r := Ok(fields);
  }

  /** Adding a locale not yet processed extends what has been built by it. */
  lemma AddExtendsBuilt(t: Transforms, locales: map<string, Record>, done: set<string>, l: string,
                        convert: Converter, lookup: Lookup,
                        before: map<string, map<string, Json>>, after: map<string, map<string, Json>>)
    requires l in locales && l !in done
    requires BuiltOver(t, locales, done, convert, lookup, before)
    requires LocaleAdded(t, l, locales[l], locales[l].Keys, convert, lookup, before, after)
    ensures BuiltOver(t, locales, done + {l}, convert, lookup, after)
  {
    assert locales[l].Keys * locales[l].Keys == locales[l].Keys;
    AddExtendsKeys(t, locales, done, l, convert, lookup, before, after);
    AddExtendsSlots(t, locales, done, l, convert, lookup, before, after);
  }

  lemma AddExtendsKeys(t: Transforms, locales: map<string, Record>, done: set<string>, l: string,
                       convert: Converter, lookup: Lookup,
                       before: map<string, map<string, Json>>, after: map<string, map<string, Json>>)
    requires l in locales
    requires forall f :: f in before <==> HasField(locales, done, f)
    requires after.Keys == before.Keys + locales[l].Keys
    ensures forall f :: f in after <==> HasField(locales, done + {l}, f)
  {
    forall f ensures f in after <==> HasField(locales, done + {l}, f) {
      if f in locales[l] {
        assert l in done + {l} && l in locales && f in locales[l];
      } else if HasField(locales, done + {l}, f) {
        var k :| k in done + {l} && k in locales && f in locales[k];
        assert HasField(locales, done, f);
      }
    }
  }

  lemma AddExtendsSlots(t: Transforms, locales: map<string, Record>, done: set<string>, l: string,
                        convert: Converter, lookup: Lookup,
                        before: map<string, map<string, Json>>, after: map<string, map<string, Json>>)
    requires l in locales && l !in done
    requires BuiltOver(t, locales, done, convert, lookup, before)
    requires LocaleAdded(t, l, locales[l], locales[l].Keys, convert, lookup, before, after)
    ensures forall f, m :: f in after ==>
      (m in after[f] <==> m in done + {l} && SlotOf(t, locales, convert, lookup, f, m).Some?)
    ensures forall f, m :: f in after && m in after[f] ==>
      after[f][m] == SlotOf(t, locales, convert, lookup, f, m).value
  {
    forall f, m | f in after
      ensures m in after[f] <==> m in done + {l} && SlotOf(t, locales, convert, lookup, f, m).Some?
      ensures m in after[f] ==> after[f][m] == SlotOf(t, locales, convert, lookup, f, m).value
    {
      if f in before {
        assert l !in before[f];
      }
    }
  }

  /** The per-record loop body of lines 192-252: the entry for one merged
      record, `locales` mapping each locale to that locale's record. */
  method BuildEntry(t: Transforms, modelName: string, locales: map<string, Record>,
                    convert: Converter, lookup: Lookup)
    returns (r: Result<Entry, Fault>)
    ensures r.Ok? <==> NoFailureOver(t, locales, locales.Keys, convert, lookup)
    ensures r.Ok? ==> r.value.contentTypeId == modelName
    ensures r.Ok? ==> BuiltOver(t, locales, locales.Keys, convert, lookup, r.value.fields)
    ensures r.Err? ==>
      exists l, f :: l in locales && f in locales[l] && Transformed(t, f, locales[l][f], convert, lookup) == Err(r.error)
  {
    var fields: map<string, map<string, Json>> := map[];
    var todo := locales.Keys;
    while todo != {}
      invariant todo <= locales.Keys
      invariant BuiltOver(t, locales, locales.Keys - todo, convert, lookup, fields)
      invariant NoFailureOver(t, locales, locales.Keys - todo, convert, lookup)
      decreases todo
    {
      var l :| l in todo;
      var added := AddLocale(t, l, locales[l], fields, convert, lookup);
      if added.Err? {
        return Err(added.error);
      }
      AddExtendsBuilt(t, locales, locales.Keys - todo, l, convert, lookup, fields, added.value);
      fields := added.value;
      todo := todo - {l};
    }
    r := Ok(Entry(modelName, fields));
  }

  /** The entry does not depend on the order in which locales and fields are
      visited: what is built from all of them is unique. */
  lemma BuiltUnique(t: Transforms, locales: map<string, Record>, convert: Converter, lookup: Lookup,
                    f1: map<string, map<string, Json>>, f2: map<string, map<string, Json>>)
    requires BuiltOver(t, locales, locales.Keys, convert, lookup, f1)
    requires BuiltOver(t, locales, locales.Keys, convert, lookup, f2)
    ensures f1 == f2
  {
    forall f | f in f1 ensures f in f2 && f1[f] == f2[f] {
      assert f1[f].Keys == f2[f].Keys;
    }
  }

  /** What the entry holds for field `f` of locale `l`, by the field's kind:
      the field always has a key; a falsy markdown value leaves the locale's
      slot empty and any other is converted from its `markdown` text; a
      reference is resolved to links; a location becomes `{lat, lon}`; any
      other value is copied verbatim. */
  lemma BuiltSlot(t: Transforms, locales: map<string, Record>, convert: Converter, lookup: Lookup,
                  fields: map<string, map<string, Json>>, l: string, f: string)
    requires BuiltOver(t, locales, locales.Keys, convert, lookup, fields)
    requires l in locales && f in locales[l] && !FieldFails(t, locales[l], convert, lookup, f)
    ensures f in fields
    ensures f in t.markdownFields && !Truthy(locales[l][f]) ==> l !in fields[f]
    ensures f in t.markdownFields && Truthy(locales[l][f]) ==>
      && locales[l][f].JObj? && "markdown" in locales[l][f].members
      && l in fields[f] && fields[f][l] == convert(locales[l][f].members["markdown"])
    ensures KindOf(t, f) == Reference ==> l in fields[f] && Resolved(f, locales[l][f], lookup) == Ok(fields[f][l])
    ensures KindOf(t, f) == Location ==>
      && locales[l][f].JObj? && "latitude" in locales[l][f].members && "longitude" in locales[l][f].members
      && l in fields[f]
      && fields[f][l] == JObj(map["lat" := locales[l][f].members["latitude"], "lon" := locales[l][f].members["longitude"]])
    ensures KindOf(t, f) == Plain ==> l in fields[f] && fields[f][l] == locales[l][f]
  {
    assert HasField(locales, locales.Keys, f);
    var v := locales[l][f];
    var r := Transformed(t, f, v, convert, lookup);
    if KindOf(t, f) == Location {
      assert r.Ok? && Relocated(v).Ok?;
    }
  }
}
