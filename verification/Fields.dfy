/** Maps with a fixed list of field names, and looking a field up. */
module Fields {
  import opened Bytes
  import opened Sorting
  import opened Cbor
  import opened CborLaws

  /** `{name: value, ...}` in the order written. */
  function FieldEntries(names: seq<string>, vals: seq<Value>): (r: seq<Entry>)
    requires |names| == |vals|
    ensures |r| == |names|
  {
    seq(|names|, i requires 0 <= i < |names| => Entry(Ascii(names[i]), vals[i]))
  }

  function MapOf(names: seq<string>, vals: seq<Value>): Value
    requires |names| == |vals|
  {
    Map(FieldEntries(names, vals))
  }

  /** Short ASCII names without repetition. */
  ghost predicate GoodNames(names: seq<string>) {
    && |names| < 0x100
    && (forall i :: 0 <= i < |names| ==> |names[i]| < 0x100 && IsAscii(names[i]))
    && (forall i, j :: 0 <= i < j < |names| ==> names[i] != names[j])
  }

  ghost predicate IsAscii(s: string) {
    forall i :: 0 <= i < |s| ==> s[i] as int < 0x80
  }

  lemma {:induction false} AsciiInjective(a: string, b: string)
    requires IsAscii(a) && IsAscii(b) && Ascii(a) == Ascii(b)
    ensures a == b
  {
    assert |a| == |Ascii(a)| == |b|;
    forall i | 0 <= i < |a| ensures a[i] == b[i] {
      assert Ascii(a)[i] == a[i] as int && Ascii(b)[i] == b[i] as int;
    }
  }

  lemma {:induction false} NamesDiffer(names: seq<string>, i: nat, j: nat)
    requires GoodNames(names) && i < |names| && j < |names| && Ascii(names[i]) == Ascii(names[j])
    ensures i == j
  {
    AsciiInjective(names[i], names[j]);
  }

  lemma {:induction false} FieldKeysDistinct(names: seq<string>, vals: seq<Value>)
    requires GoodNames(names) && |names| == |vals|
    ensures DistinctBy(FieldEntries(names, vals), KeyOf)
  {
    var es := FieldEntries(names, vals);
    forall i, j | 0 <= i < j < |es| ensures KeyOf(es[i]) != KeyOf(es[j]) {
      if KeyOf(es[i]) == KeyOf(es[j]) { NamesDiffer(names, i, j); }
    }
  }

  lemma {:induction false} ValidEntriesFromAt(es: seq<Entry>)
    requires forall i :: 0 <= i < |es| ==> |es[i].key| < TWO64 && Valid(es[i].val)
    ensures ValidEntries(es)
  {
    if es == [] {
    } else {
      forall i | 0 <= i < |es[1..]| ensures |es[1..][i].key| < TWO64 && Valid(es[1..][i].val) {
        assert es[1..][i] == es[i + 1];
      }
      ValidEntriesFromAt(es[1..]);
    }
  }

  lemma {:induction false} ValidItemsFromAt(items: seq<Value>)
    requires forall i :: 0 <= i < |items| ==> Valid(items[i])
    ensures ValidItems(items)
  {
    if items == [] {
    } else {
      forall i | 0 <= i < |items[1..]| ensures Valid(items[1..][i]) { assert items[1..][i] == items[i + 1]; }
      ValidItemsFromAt(items[1..]);
    }
  }

  lemma {:induction false} ValidMapIff(names: seq<string>, vals: seq<Value>)
    requires GoodNames(names) && |names| == |vals|
    ensures Valid(MapOf(names, vals)) <==> forall i :: 0 <= i < |vals| ==> Valid(vals[i])
  {
    var es := FieldEntries(names, vals);
    FieldKeysDistinct(names, vals);
    if forall i :: 0 <= i < |vals| ==> Valid(vals[i]) {
      ValidEntriesFromAt(es);
    }
    if Valid(MapOf(names, vals)) {
      ValidEntriesAt(es);
      forall i | 0 <= i < |vals| ensures Valid(vals[i]) { assert es[i].val == vals[i]; }
    }
  }

  lemma {:induction false} ValidArrayIff(items: seq<Value>)
    ensures Valid(Array(items)) <==> |items| < TWO64 && forall i :: 0 <= i < |items| ==> Valid(items[i])
  {
    if forall i :: 0 <= i < |items| ==> Valid(items[i]) { ValidItemsFromAt(items); }
    if ValidItems(items) { ValidItemsAt(items); }
  }

  // ----- comparing field by field

  lemma {:induction false} SameFieldIff(names: seq<string>, vals: seq<Value>, ws: seq<Value>, i: nat)
    requires GoodNames(names) && |names| == |vals| == |ws| && i < |names|
    ensures SameIn(FieldEntries(names, vals)[i], FieldEntries(names, ws)) <==> Same(vals[i], ws[i])
  {
    var a, b := FieldEntries(names, vals), FieldEntries(names, ws);
    if SameIn(a[i], b) {
      var j :| 0 <= j < |b| && b[j].key == a[i].key && Same(a[i].val, b[j].val);
      NamesDiffer(names, i, j);
    }
    if Same(vals[i], ws[i]) {
      assert b[i].key == a[i].key && Same(a[i].val, b[i].val);
    }
  }

  lemma {:induction false} SameMapIff(names: seq<string>, vals: seq<Value>, ws: seq<Value>)
    requires GoodNames(names) && |names| == |vals| == |ws|
    ensures Same(MapOf(names, vals), MapOf(names, ws)) <==>
      forall i :: 0 <= i < |vals| ==> Same(vals[i], ws[i])
  {
    var a, b := FieldEntries(names, vals), FieldEntries(names, ws);
    forall i | 0 <= i < |vals| ensures SameIn(a[i], b) <==> Same(vals[i], ws[i]) {
      SameFieldIff(names, vals, ws, i);
    }
    if Same(MapOf(names, vals), MapOf(names, ws)) {
      forall i | 0 <= i < |vals| ensures Same(vals[i], ws[i]) { assert SameIn(a[i], b); }
    }
  }

  lemma {:induction false} SameReflexive(v: Value)
    requires Valid(v)
    ensures Same(v, v)
  {
    SameIffCanon(v, v);
  }

  lemma {:induction false} SameSymmetric(v: Value, w: Value)
    requires Valid(v) && Valid(w) && Same(v, w)
    ensures Same(w, v)
  {
    SameIffCanon(v, w);
    SameIffCanon(w, v);
  }

  // ----- looking a field up

  /** `m.get(key)`; keys are distinct, so the first match is the only one. */
  function Lookup(es: seq<Entry>, key: ByteString): Option<Value> {
    if es == [] then None
    else if es[0].key == key then Some(es[0].val)
    else Lookup(es[1..], key)
  }

  lemma {:induction false} LookupAt(es: seq<Entry>, j: nat)
    requires j < |es| && DistinctBy(es, KeyOf)
    ensures Lookup(es, es[j].key) == Some(es[j].val)
  {
    if j == 0 {
    } else {
      assert KeyOf(es[0]) != KeyOf(es[j]);
      forall x, y | 0 <= x < y < |es[1..]| ensures KeyOf(es[1..][x]) != KeyOf(es[1..][y]) {
        assert KeyOf(es[x + 1]) != KeyOf(es[y + 1]);
      }
      LookupAt(es[1..], j - 1);
    }
  }

  lemma {:induction false} LookupValid(es: seq<Entry>, key: ByteString)
    requires ValidEntries(es)
    ensures Lookup(es, key).Some? ==> Valid(Lookup(es, key).value)
  {
    if es == [] {
    } else {
      LookupValid(es[1..], key);
    }
  }

  /** A map that is the same as a record, whatever its order, has the record's fields. */
  lemma {:induction false} LookupSame(es: seq<Entry>, names: seq<string>, vals: seq<Value>, i: nat)
    requires GoodNames(names) && |names| == |vals| && i < |names|
    requires Valid(Map(es)) && Valid(MapOf(names, vals)) && Same(Map(es), MapOf(names, vals))
    ensures Lookup(es, Ascii(names[i])).Some? && Same(Lookup(es, Ascii(names[i])).value, vals[i])
  {
    var fields := FieldEntries(names, vals);
    SameSymmetric(Map(es), Map(fields));
    assert SameIn(fields[i], es);
    var j :| 0 <= j < |es| && es[j].key == fields[i].key && Same(fields[i].val, es[j].val);
    LookupAt(es, j);
    ValidEntriesAt(es);
    ValidEntriesAt(fields);
    SameSymmetric(fields[i].val, es[j].val);
  }
}
