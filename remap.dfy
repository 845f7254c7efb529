/** The field remap (glue_job.py lines 161-172): every field of every locale
    of every record whose name is a key of the remap table is moved, value
    unchanged, to the table's new name. The loop renames fields of a copy;
    here the copy is a new value, so the merged data it is made from is left
    as it was by construction. */
module Remap {
  import opened Json
  import opened Merge

  /** Some field of `rec` is renamed to `k`. */
  ghost predicate Targeted(rec: Record, table: map<string, string>, k: string) {
    exists f :: f in rec && f in table && table[f] == k
  }

  /** No renamed field's new name is the name of another field of the
      record, or the new name of another renamed field. Only then is the
      result independent of the order in which fields are renamed. */
  ghost predicate NoCollision(rec: Record, table: map<string, string>) {
    && (forall f, g :: f in rec && f in table && g in rec && f != g ==> table[f] != g)
    && (forall f, g :: f in rec && f in table && g in rec && g in table && f != g ==> table[f] != table[g])
  }

  /** `out` is `rec` with every field of the table under its new name, value
      unchanged, every other field untouched, and no other field. */
  ghost predicate IsRenamed(rec: Record, table: map<string, string>, out: Record) {
    && (forall f :: f in rec && f !in table ==> f in out && out[f] == rec[f])
    && (forall f :: f in rec && f in table ==> table[f] in out && out[table[f]] == rec[f])
    && (forall k :: k in out ==> (k in rec && k !in table) || Targeted(rec, table, k))
  }

  /** No other renamed field of `rec` is renamed to `f`. */
  ghost predicate NotRenamedInto(rec: Record, table: map<string, string>, f: string) {
    forall h :: h in rec && h in table && h != f ==> table[h] != f
  }

  /** The new name of the renamed field `f` is not popped later: it is `f`
      itself, or it is not a renamed field of `rec`. */
  ghost predicate TargetStays(rec: Record, table: map<string, string>, f: string)
    requires f in table
  {
    table[f] in rec && table[f] in table ==> table[f] == f
  }

  /** The renamed field `f` is the only field renamed to its new name, no
      other field is renamed to `f`, and the new name is not itself a
      renamed field of `rec`: its value then reaches the new name whatever
      the order, overwriting a field of that name if there is one. */
  ghost predicate SoleRename(rec: Record, table: map<string, string>, f: string)
    requires f in table
  {
    && (forall h :: h in rec && h in table && h != f ==> table[h] != table[f])
    && NotRenamedInto(rec, table, f)
    && TargetStays(rec, table, f)
  }

  /** Without collisions every renamed field is a sole rename, no field is
      renamed into another, and a field outside the table is no new name. */
  lemma CollisionFreeIsSole(rec: Record, table: map<string, string>)
    requires NoCollision(rec, table)
    ensures forall f :: f in rec && f in table ==> SoleRename(rec, table, f)
    ensures forall g :: g in rec ==> NotRenamedInto(rec, table, g)
    ensures forall g :: g in rec && g !in table ==> !Targeted(rec, table, g)
  {
  }

  /** What renaming the fields of `rec` one at a time, in any order, yields:
      only fields that were not renamed or that some field was renamed to
      remain; a field that is not renamed and that no field is renamed to
      is untouched; a new name that is not popped later remains; a sole
      rename carries its value to its new name; and
      without collisions the result is exactly the renaming. */
  ghost predicate RemapOutcome(rec: Record, table: map<string, string>, out: Record) {
    && (forall k :: k in out ==> (k in rec && k !in table) || Targeted(rec, table, k))
    && (forall g :: g in rec && g !in table && !Targeted(rec, table, g) ==> g in out && out[g] == rec[g])
    && (forall f :: f in rec && f in table && TargetStays(rec, table, f) ==> table[f] in out)
    && (forall f :: f in rec && f in table && SoleRename(rec, table, f) ==> table[f] in out && out[table[f]] == rec[f])
    && (NoCollision(rec, table) ==> IsRenamed(rec, table, out))
  }

  /** The loop invariant of the rename loop, `todo` being the fields of the
      original not yet visited. */
  ghost predicate RenamedSoFar(rec: Record, table: map<string, string>, todo: set<string>, out: Record) {
    && todo <= rec.Keys
    && (forall f :: f in todo ==> f in out)
    && (forall k :: k in out ==> (k in rec && (k !in table || k in todo)) || Targeted(rec, table, k))
    && (forall g :: g in rec && g !in table && !Targeted(rec, table, g) ==> g in out && out[g] == rec[g])
    && (forall g :: g in todo && NotRenamedInto(rec, table, g) ==> out[g] == rec[g])
    && (forall d :: d in rec && d !in todo && d in table && TargetStays(rec, table, d) ==> table[d] in out)
    && (forall d :: d in rec && d !in todo && d in table && SoleRename(rec, table, d) ==>
          table[d] in out && out[table[d]] == rec[d])
  }

  /** `copy[table[f]] = copy.pop(f)` when `f` is a key of the table. */
  function RenameOne(out: Record, table: map<string, string>, f: string): Record
    requires f in out
  {
    if f in table then (out - {f})[table[f] := out[f]] else out
  }

  /** The innermost loop of lines 168-172 for one record of one locale:
      `copy[table[f]] = copy.pop(f)` for each field `f` of the original that
      is a key of the table. */
  method RemapRecord(rec: Record, table: map<string, string>) returns (out: Record)
    ensures RemapOutcome(rec, table, out)
  {
    out := rec;
    var todo := rec.Keys;
    while todo != {}
      invariant RenamedSoFar(rec, table, todo, out)
      decreases todo
    {
      var f :| f in todo;
      RenameStep(rec, table, todo, out, f);
      if f in table {
        var value := out[f];
        out := (out - {f})[table[f] := value];
      }
      todo := todo - {f};
    }
    RenamedAll(rec, table, out);
  }

  /** Visiting one more field keeps the loop invariant. */
  lemma RenameStep(rec: Record, table: map<string, string>, todo: set<string>, out: Record, f: string)
    requires f in todo && RenamedSoFar(rec, table, todo, out)
    ensures RenamedSoFar(rec, table, todo - {f}, RenameOne(out, table, f))
  {
    if f in table {
      SoleStep(rec, table, todo, out, f);
    }
  }

  /** Once every field is visited, the invariant gives the outcome. */
  lemma RenamedAll(rec: Record, table: map<string, string>, out: Record)
    requires RenamedSoFar(rec, table, {}, out)
    ensures RemapOutcome(rec, table, out)
  {
    if NoCollision(rec, table) {
      CollisionFreeIsSole(rec, table);
    }
  }

  /** Renaming the field `f` keeps every value a sole rename has carried,
      and carries `f`'s own value when it is a sole rename. */
  lemma SoleStep(rec: Record, table: map<string, string>, todo: set<string>, out: Record, f: string)
    requires f in todo && f in table && todo <= rec.Keys
    requires forall g :: g in todo ==> g in out
    requires forall g :: g in todo && NotRenamedInto(rec, table, g) ==> out[g] == rec[g]
    requires forall d :: d in rec && d !in todo && d in table && SoleRename(rec, table, d) ==>
      table[d] in out && out[table[d]] == rec[d]
    ensures forall d :: d in rec && d !in todo - {f} && d in table && SoleRename(rec, table, d) ==>
      table[d] in (out - {f})[table[f] := out[f]] && (out - {f})[table[f] := out[f]][table[d]] == rec[d]
  {
    var next := (out - {f})[table[f] := out[f]];
    forall d | d in rec && d !in todo - {f} && d in table && SoleRename(rec, table, d)
      ensures table[d] in next && next[table[d]] == rec[d]
    {
      if d != f {
        assert table[d] != table[f];
        assert table[d] != f;
      }
    }
  }

  /** Renaming `a` to the existing field `b` overwrites it: `{a: 1, b: 2}`
      with the table `{a: "b"}` becomes `{b: 1}` in every field order. */
  lemma OverwriteExample(out: Record)
    requires RemapOutcome(map["a" := JNum(1.0), "b" := JNum(2.0)], map["a" := "b"], out)
    ensures out == map["b" := JNum(1.0)]
  {
    var rec := map["a" := JNum(1.0), "b" := JNum(2.0)];
    var table := map["a" := "b"];
    assert SoleRename(rec, table, "a");
    assert forall k :: k in out ==> k == "b";
  }

  /** The middle loop of lines 167-172: every locale's record of one slug. */
  method RemapLocales(locales: map<string, Record>, table: map<string, string>) returns (out: map<string, Record>)
    ensures out.Keys == locales.Keys
    ensures forall l :: l in locales ==> RemapOutcome(locales[l], table, out[l])
  {
    out := locales;
    var todo := locales.Keys;
    while todo != {}
      invariant todo <= locales.Keys && out.Keys == locales.Keys
      invariant forall l :: l in locales && l !in todo ==> RemapOutcome(locales[l], table, out[l])
      decreases todo
    {
      var l :| l in todo;
      var renamed := RemapRecord(locales[l], table);
      out := out[l := renamed];
      todo := todo - {l};
    }
  }

  /** `remapped` has the slugs of `merged`, in the same order, the same
      locales for each, and each record renamed as `RemapOutcome` says. */
  ghost predicate RemappedFrom(merged: Merged, table: map<string, string>, remapped: Merged) {
    && remapped.slugs == merged.slugs
    && remapped.byLocale.Keys == merged.byLocale.Keys
    && (forall s :: s in merged.byLocale ==> remapped.byLocale[s].Keys == merged.byLocale[s].Keys)
    && (forall s, l :: s in merged.byLocale && l in merged.byLocale[s] ==>
          RemapOutcome(merged.byLocale[s][l], table, remapped.byLocale[s][l]))
  }

  /** The remap of lines 161-172: a copy of the merged data with the same
      slugs, in the same order, and the same locales, each record renamed. */
  method RemapFields(merged: Merged, table: map<string, string>) returns (remapped: Merged)
    ensures RemappedFrom(merged, table, remapped)
    ensures merged.Valid() ==> remapped.Valid()
  {
    var out := merged.byLocale;
    var todo := merged.byLocale.Keys;
    while todo != {}
      invariant todo <= merged.byLocale.Keys && out.Keys == merged.byLocale.Keys
      invariant forall s :: s in merged.byLocale && s !in todo ==>
        && out[s].Keys == merged.byLocale[s].Keys
        && forall l :: l in merged.byLocale[s] ==> RemapOutcome(merged.byLocale[s][l], table, out[s][l])
      decreases todo
    {
      var s :| s in todo;
      var locales := RemapLocales(merged.byLocale[s], table);
      out := out[s := locales];
      todo := todo - {s};
    }
    remapped := Merged(merged.slugs, out);
  }

  /** Without collisions, renaming has one result whatever the order the
      fields are visited in. */
  lemma RenamingIsUnique(rec: Record, table: map<string, string>, o1: Record, o2: Record)
    requires NoCollision(rec, table)
    requires IsRenamed(rec, table, o1) && IsRenamed(rec, table, o2)
    ensures o1 == o2
  {
    forall k | k in o1 ensures k in o2 && o1[k] == o2[k] {
      if !(k in rec && k !in table) {
        var f :| f in rec && f in table && table[f] == k;
      }
    }
    forall k | k in o2 ensures k in o1 {
      if !(k in rec && k !in table) {
        var f :| f in rec && f in table && table[f] == k;
      }
    }
  }

  /** When no new name is itself a key of the table, remapping the result a
      second time changes nothing. */
  lemma RemapIdempotent(rec: Record, table: map<string, string>, once: Record, twice: Record)
    requires NoCollision(rec, table)
    requires forall f :: f in rec && f in table ==> table[f] !in table
    requires RemapOutcome(rec, table, once) && RemapOutcome(once, table, twice)
    ensures twice == once
  {
    forall k | k in once ensures k !in table {
      if !(k in rec && k !in table) {
        var f :| f in rec && f in table && table[f] == k;
      }
    }
    assert NoCollision(once, table);
  }
}
