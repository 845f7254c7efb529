# Hygraph to Contentful record transformation, modelled in Dafny

This project models the record-transformation core of the migration job
`glue_job.py`. The job copies one content model from Hygraph to Contentful
in four steps:

1. It queries Hygraph once per locale and regroups the per-locale results
   into one dictionary `slug -> locale -> record`. The first locale whose
   result is non-empty seeds the keyspace.
2. It renames fields through the `remap_fields` table, working on a copy.
3. For every record it builds a Contentful entry
   `{content_type_id, fields: field -> locale -> value}`. Each field is
   handled by kind, in this order:
   - markdown fields are converted to rich text;
   - reference fields are resolved to `Link` structures by looking up the
     target entry's id;
   - location fields are reshaped to `{lat, lon}`;
   - every other field is copied.
4. It creates and publishes each entry.

Files:

- `wrappers.dfy`: `Option` and `Result`. An `Err` stands for a raised
  exception.
- `json.dfy`: the JSON-like value type, plus two pieces of Python behaviour
  the job relies on: truthiness and `v[key]`, including what `v[key]`
  raises.
- `merge.dfy`: the locale merge.
- `remap.dfy`: the field remap.
- `entries.dfy`: the entry builder and the reference resolver.
- `migration.dfy`: the per-record migration loop and the whole flow.

External systems are parameters:

- `query: string -> seq<Record>` is one locale's GraphQL result.
- `convert: Json -> Json` is the markdown converter together with the
  decoding of its JSON answer.
- `lookup: (string, Json) -> seq<string>` is the delivery API's entry
  search. It returns the ids of the entries found, in the order the API
  returns them; the job takes the first.

The script's loops are methods with loop invariants. Each method is proved
against ghost predicates that say what the loop builds. Python dictionaries
become Dafny maps, iterated in an unspecified order (`:|`). Python
dictionaries are ordered, so the merged dictionary's key order is kept
explicitly as `Merged.slugs`. That order is the order records are published
in.

A record in a later locale whose slug the seeding locale did not have is
not dropped: line 153 of `glue_job.py` assigns `hygraph[slug][locale]`
without a check, which raises `KeyError` and stops the job. The model
follows the code: `MergeLocales` returns `Err` for such a record.
`UnseededSlugExample` shows a two-locale case where this happens.

## Model

| member | source | states |
|---|---|---|
| Json.Truthy | glue_job.py:207 | A value is falsy exactly when it is `None`, `False`, zero, the empty string, the empty list or the empty dictionary, as Python's `if` treats it. |
| Json.Subscript | glue_job.py:209-249 | `v[key]` succeeds exactly when `v` is a dictionary holding `key`, and then gives that member. A dictionary without the key raises `KeyError` for that key; any other value raises `TypeError`. |
| Merge.SlugKey | glue_job.py:151-153 | `record['slug']` as a dictionary key succeeds exactly when the record has a string `slug`, and then gives that string. A missing `slug` raises `KeyError`; a non-string slug is reported with its value. |
| Merge.SeedIndex | glue_job.py:130-151 | Picks the first locale whose query result is non-empty. Every locale before it returns nothing; it is `|locales|` when all results are empty. This is the locale whose loop iteration finds `hygraph == {}` and seeds. |
| Merge.SlugsMembers | glue_job.py:150-151 | A slug belongs to the seeded set exactly when some record of the result carries it as its string slug. |
| Merge.SlugOrderLists | glue_job.py:150-151 | The seeded key order lists each slug of the result once and nothing else. The order for every prefix of the result is a prefix of the whole order, so each slug takes its place at its first occurrence and later records only append. |
| Merge.LastWithSlugIsLast | glue_job.py:152-153 | A locale's slot for a slug exists exactly when its result has that slug. The slot holds the last record with that slug, because a later record with the same slug overwrites an earlier one. |
| Merge.SeedKeyspace | glue_job.py:149-151 | Seeding succeeds exactly when every record has a string `slug`. The keys and their order are then the result's slugs, each mapped to an empty dictionary. Otherwise a record without a usable slug is named as the error. |
| Merge.WriteLocale | glue_job.py:152-153 | Writing one locale succeeds exactly when every record has a string slug that was seeded. The keys stay the same. The locale's slot for each slug holds the last record with that slug, whole and including its slug field. All other slots are unchanged. Otherwise the error is the fault of a failing record. |
| Merge.MergeLocale | glue_job.py:133-153 | One iteration of the locale loop keeps the merge invariant. Before the seed locale the dictionary is empty. After it, the keys and order are the seed locale's slugs, and every slot is filled from the locales seen so far. On failure a record of this locale raised. |
| Merge.MergeLocales | glue_job.py:130-153 | The merge succeeds exactly when no record of any locale lacks a string slug or carries an unseeded one. On success the keyspace and key order are exactly the seed locale's slugs, and each slot holds that locale's last record for the slug. On failure the named locale has a record that raises. |
| Merge.UnseededSlugFails | glue_job.py:152-153 | A record with no `slug` key, or with a slug the seed locale did not have, makes the merge fail instead of being dropped. |
| Merge.UnseededSlugExample | glue_job.py:149-153 | With English seeding slug "a" and French holding "a" and "c", the merge fails. |
| Remap.RemapRecord | glue_job.py:168-172 | Renaming one record in any field order has these outcomes. It keeps only fields that are not renamed or that some field was renamed to. It leaves a field untouched when that field is neither renamed nor a rename target. A sole rename carries its value, unchanged, to its new name, and overwrites a field already there. A renamed field whose new name is not another renamed field of the original record always leaves that new name in the result. A sole rename is one where no other field shares the new name, no other field is renamed to this field, and the new name is not itself a renamed field. When no two fields collide, the result is exactly the renaming: each renamed field's value appears unchanged under its new name. |
| Remap.OverwriteExample | glue_job.py:168-172 | `{a: 1, b: 2}` with the table `{a: "b"}` becomes exactly `{b: 1}`. |
| Remap.RemapLocales | glue_job.py:167-172 | Every locale's record of one slug is renamed, with the same set of locales. |
| Remap.RemapFields | glue_job.py:161-172 | The remapped copy has the same slugs in the same order and the same locales per slug, and each record is renamed as `RemapRecord` states. A valid merge stays valid. The merged data itself is a value and is not changed. |
| Remap.RenamingIsUnique | glue_job.py:168-172 | Without collisions, the renamed record does not depend on the order the fields are visited in. |
| Remap.RemapIdempotent | glue_job.py:161-172 | When no new name is itself a key of the table, remapping the remapped record again changes nothing. |
| Entries.KindOf | glue_job.py:204-252 | Dispatch is by set membership only, in the order markdown, reference, location, plain. A field in several lists takes the first. |
| Entries.LinkFor | glue_job.py:236-243 | A single descriptor resolves exactly when it is a dictionary with a `slug` and the lookup finds at least one entry. The result is exactly `{sys: {type: "Link", linkType: "Entry", id: first id}}`. Zero matches is the failure `entries(...)[0]` raises. |
| Entries.LinksForSpec | glue_job.py:217-232 | A list of descriptors resolves exactly when every descriptor does. The result has the same length, in input order, and each element is that descriptor's link. On failure the error is that of the first descriptor that fails. |
| Entries.LinksForFailsEarly | glue_job.py:220-232 | Once a prefix of the list fails, the whole list fails with the same error, so resolution stops at the first failure. |
| Entries.ResolvedCases | glue_job.py:217-243 | The reference cases: a list resolves as `LinksForSpec` states, and any other value is resolved as a single descriptor. |
| Entries.ResolveReference | glue_job.py:214-243 | The append loop over a reference list, or the single lookup, gives exactly the resolution `ResolvedCases` describes. |
| Entries.Relocated | glue_job.py:244-249 | A location becomes exactly `{lat: latitude, lon: longitude}` with the original values. A value that is not a dictionary fails on `latitude`. A dictionary without `latitude` fails with a missing `latitude`. One with `latitude` but not `longitude` fails with a missing `longitude`. |
| Entries.TransformField | glue_job.py:204-252 | A slot is left unwritten exactly when the field is a markdown field with a falsy value. A truthy markdown value succeeds exactly when it has a `markdown` member, and then stores the converter's result for it. Location fields are reshaped and plain values are copied verbatim. |
| Entries.AddField | glue_job.py:199-252 | One field of one locale: its key is created as `{}` only on first sight. The locale's slot is written only when the transform produces a value. |
| Entries.AddLocale | glue_job.py:198-252 | The field loop for one locale succeeds exactly when no field's transform fails. Afterwards every field has a key, this locale's slots are written where a value is produced, and all other slots are kept, including those of earlier locales. |
| Entries.BuildEntry | glue_job.py:192-252 | The entry for one record succeeds exactly when no field of any locale fails. `content_type_id` is the model name. There is a key for every field of every locale, and a slot for each locale whose transform wrote a value, holding that value. On failure the error is some failing field's error. |
| Entries.BuiltUnique | glue_job.py:197-252 | The built entry does not depend on the order in which locales and fields are visited. |
| Entries.BuiltSlot | glue_job.py:197-252 | Per field of a locale in a built entry: the field always has a key. A falsy markdown value leaves no slot for the locale, and any other markdown value holds `convert(value['markdown'])`. A reference holds its resolved links, a location holds `{lat, lon}`, and any other field holds the value unchanged. |
| Migration.BuildRecord | glue_job.py:192-252 | Building the entry for one slug succeeds exactly when every field of every locale of its record builds, and the entry is then the one `BuildEntry` states for that record. |
| Migration.Migrate | glue_job.py:188-261 | One entry is published per record, in key order, each built from that record. If every record builds, all are published. Otherwise the job stops at the first record that fails, and every record before it has been built and published. |
| Migration.Run | glue_job.py:130-261 | The whole flow. A failed merge publishes nothing and is reported as a merge failure. Otherwise the published entries are built, in key order, from the remapped copy of exactly the merge `MergeLocales` describes. If nothing fails, there is one entry per seeded slug. If a build fails, the published entries are those of the slugs before the failing one, every one of which builds, and the slug at that position does not build. |

## Left out

- Retrieving SSM parameters, parsing arguments, logging, and fetching the EC2 region metadata (lines 20-30, 50-98): AWS I/O and plumbing.
- Setting up the GraphQL client and building and executing the query (lines 104-106, 137-145): network I/O. Each locale's result is the `query` parameter.
- Invoking the markdown Lambda and decoding its `body` (lines 34-45, 213): a foreign call. It is the `convert` parameter, which cannot fail in the model.
- Setting up the Contentful clients and searching the delivery API (lines 112-122, 223, 237): network clients. The search is the `lookup` parameter.
- The `lookup` parameter is one fixed function for the whole run. When a reference field is named after the migrated model, an entry the job published earlier in the run (lines 256-261) could be found by a later search; the model does not capture that.
- Creating, saving and publishing an entry (lines 256-261): modelled as appending the entry to the published sequence. API failures are not modelled.
- The random wait and `sleep` (lines 84, 134, 190): they use timing and floating point and have no bearing on the data.
- `lambda_function.js`: a wrapper over a rich-text library that is not part of this model.
- Merge.SlugKey: any non-string slug is treated as a failure. Python would also accept other hashable values, such as numbers or `None`, as dictionary keys.
- Remap.RemapRecord: when several fields are renamed to one name, or a field is renamed to a field that is itself renamed or renamed into, only the kept and untouched fields and the sole renames are stated. In those cases Python's outcome depends on the record's field order, which the model does not track.
- Entries.BuildEntry: the order of fields inside the entry's dictionaries is not modelled, because Contentful does not depend on it.
- Json.Json: numbers are kept as reals. The job copies them and never computes with them.
- A query result that is not a list, such as a GraphQL error response, is not modelled: `query` always returns a list of records.
