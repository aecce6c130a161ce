/** Archived column values and their JSON-safe form. */
module ArchiveValue {
  import opened Common

  /** A record keeps its keys in order; a date without a time is an invalid Date. */
  datatype Value =
    | Null
    | Bool(flag: bool)
    | Num(number: real)
    | Str(text: string)
    | Arr(items: seq<Value>)
    | Obj(entries: seq<Entry>)
    | Date(time: Option<Time>)
    | Bytes(data: seq<bv8>)

  datatype Entry = Entry(key: string, value: Value)

  datatype ValueError = InvalidDate | InvalidBinary

  /**
   The text formats the archive builds on, as functions: base64 (section 4 of RFC 4648), ISO timestamps, JSON text
   and SHA-256. The readers answer None where the source's format test fails.
   */
  datatype Formats = Formats(
    base64: seq<bv8> -> string, readBase64: string -> Option<seq<bv8>>,
    iso: Time -> string, readIso: string -> Option<Time>,
    json: Value -> string, readJson: string -> Option<Value>,
    sha256: string -> string)

  /** Just strings, numbers, booleans, null, arrays and records. */
  ghost predicate Plain(v: Value) {
    && !v.Date? && !v.Bytes?
    && (v.Arr? ==> forall i :: 0 <= i < |v.items| ==> Plain(v.items[i]))
    && (v.Obj? ==> forall i :: 0 <= i < |v.entries| ==> Plain(v.entries[i].value))
  }

  /** A binary value and a date are read back from their text. */
  ghost predicate ValuesReadBack(f: Formats) {
    && (forall b: seq<bv8> :: f.readBase64(f.base64(b)) == Some(b))
    && (forall t: Time :: f.readIso(f.iso(t)) == Some(t))
  }

  // ---- encoding and decoding ----

  /** All values, or the first error. */
  function Collect<T, E>(rs: seq<Result<T, E>>): (r: Result<seq<T>, E>)
    ensures r.Ok? ==> |r.value| == |rs| && forall i :: 0 <= i < |rs| ==> rs[i] == Ok(r.value[i])
    ensures r.Err? ==> exists i :: 0 <= i < |rs| && rs[i].Err?
  {
    if rs == [] then Ok([])
    else if rs[0].Err? then Err(rs[0].error)
    else
      var rest := Collect(rs[1..]);
      if rest.Err? then
        assert forall i :: 0 <= i < |rs| - 1 ==> rs[1..][i] == rs[i + 1];
        Err(rest.error)
      else Ok([rs[0].value] + rest.value)
  }

  function Keyed(keys: seq<Entry>, values: seq<Value>): seq<Entry>
    requires |keys| == |values|
  {
    seq(|keys|, i requires 0 <= i < |keys| => Entry(keys[i].key, values[i]))
  }

  function Encode(v: Value, f: Formats): Result<Value, ValueError> {
    match v
    case Date(t) => if t.None? then Err(InvalidDate) else Ok(Obj([Entry("$date", Str(f.iso(t.value)))]))
    case Bytes(b) => Ok(Obj([Entry("$binary", Str(f.base64(b)))]))
    case Arr(items) =>
      var r := Collect(seq(|items|, i requires 0 <= i < |items| => Encode(items[i], f)));
      if r.Err? then Err(r.error) else Ok(Arr(r.value))
    case Obj(entries) =>
      var r := Collect(seq(|entries|, i requires 0 <= i < |entries| => Encode(entries[i].value, f)));
      if r.Err? then Err(r.error) else Ok(Obj(Keyed(entries, r.value)))
    case _ => Ok(v)
  }

  /** A record with one key, `name`, that holds a string. */
  predicate Tagged(v: Value, name: string) {
    v.Obj? && |v.entries| == 1 && v.entries[0].key == name && v.entries[0].value.Str?
  }

  function Decode(v: Value, f: Formats): Result<Value, ValueError> {
    if Tagged(v, "$binary") then
      var b := f.readBase64(v.entries[0].value.text);
      if b.None? then Err(InvalidBinary) else Ok(Bytes(b.value))
    else if Tagged(v, "$date") then
      var t := f.readIso(v.entries[0].value.text);
      if t.None? then Err(InvalidDate) else Ok(Date(t))
    else
      match v
      case Arr(items) =>
        var r := Collect(seq(|items|, i requires 0 <= i < |items| => Decode(items[i], f)));
        if r.Err? then Err(r.error) else Ok(Arr(r.value))
      case Obj(entries) =>
        var r := Collect(seq(|entries|, i requires 0 <= i < |entries| => Decode(entries[i].value, f)));
        if r.Err? then Err(r.error) else Ok(Obj(Keyed(entries, r.value)))
      case _ => Ok(v)
  }

  // ---- which values survive ----

  /** No invalid date anywhere inside. */
  ghost predicate DatesValid(v: Value) {
    && (v.Date? ==> v.time.Some?)
    && (v.Arr? ==> forall i :: 0 <= i < |v.items| ==> DatesValid(v.items[i]))
    && (v.Obj? ==> forall i :: 0 <= i < |v.entries| ==> DatesValid(v.entries[i].value))
  }

  /** No record inside looks like an encoded binary value or date. */
  ghost predicate Undisguised(v: Value) {
    && !Tagged(v, "$binary") && !Tagged(v, "$date")
    && (v.Arr? ==> forall i :: 0 <= i < |v.items| ==> Undisguised(v.items[i]))
    && (v.Obj? ==> forall i :: 0 <= i < |v.entries| ==> Undisguised(v.entries[i].value))
  }

  ghost predicate Survives(v: Value, f: Formats) {
    Encode(v, f).Ok? && Decode(Encode(v, f).value, f) == Ok(v)
  }

  lemma CollectOk<T, E>(rs: seq<Result<T, E>>, vs: seq<T>)
    requires |vs| == |rs| && forall i :: 0 <= i < |rs| ==> rs[i] == Ok(vs[i])
    ensures Collect(rs) == Ok(vs)
  {
    var r := Collect(rs);
    if r.Ok? {
      assert forall i :: 0 <= i < |rs| ==> rs[i] == Ok(r.value[i]);
      assert r.value == vs;
    }
  }

  /** Encoding works exactly without invalid dates, and yields a plain value. */
  lemma {:induction false} EncodeWorks(v: Value, f: Formats)
    ensures Encode(v, f).Ok? <==> DatesValid(v)
    ensures Encode(v, f).Ok? ==> Plain(Encode(v, f).value) && (Encode(v, f).value.Str? <==> v.Str?)
  {
    if v.Arr? {
      var rs := seq(|v.items|, i requires 0 <= i < |v.items| => Encode(v.items[i], f));
      forall i | 0 <= i < |v.items|
        ensures rs[i].Ok? <==> DatesValid(v.items[i])
        ensures rs[i].Ok? ==> Plain(rs[i].value)
      {
        EncodeWorks(v.items[i], f);
      }
      var r := Collect(rs);
    } else if v.Obj? {
      var rs := seq(|v.entries|, i requires 0 <= i < |v.entries| => Encode(v.entries[i].value, f));
      forall i | 0 <= i < |v.entries|
        ensures rs[i].Ok? <==> DatesValid(v.entries[i].value)
        ensures rs[i].Ok? ==> Plain(rs[i].value)
      {
        EncodeWorks(v.entries[i].value, f);
      }
      var r := Collect(rs);
    }
  }

  /** Decoding an encoded value gives it back exactly when no record in it is disguised (and its dates are valid). */
  lemma {:induction false} SurvivesExactly(v: Value, f: Formats)
    requires ValuesReadBack(f)
    ensures Survives(v, f) <==> DatesValid(v) && Undisguised(v)
  {
    EncodeWorks(v, f);
    if v.Arr? && DatesValid(v) {
      ArrSurvives(v, f);
      forall i | 0 <= i < |v.items| ensures Survives(v.items[i], f) <==> Undisguised(v.items[i]) {
        SurvivesExactly(v.items[i], f);
      }
    } else if v.Obj? && DatesValid(v) {
      ObjSurvives(v, f);
      forall i | 0 <= i < |v.entries| ensures Survives(v.entries[i].value, f) <==> Undisguised(v.entries[i].value) {
        SurvivesExactly(v.entries[i].value, f);
      }
    }
  }

  lemma ArrSurvives(v: Value, f: Formats)
    requires v.Arr? && DatesValid(v)
    ensures Survives(v, f) <==> forall i :: 0 <= i < |v.items| ==> Survives(v.items[i], f)
  {
    EncodeWorks(v, f);
    var e := Encode(v, f).value;
    assert forall i :: 0 <= i < |v.items| ==> Encode(v.items[i], f) == Ok(e.items[i]);
    var ds := seq(|e.items|, i requires 0 <= i < |e.items| => Decode(e.items[i], f));
    if forall i :: 0 <= i < |v.items| ==> Survives(v.items[i], f) {
      CollectOk(ds, v.items);
    }
    if Survives(v, f) {
      assert Collect(ds) == Ok(v.items);
      forall i | 0 <= i < |v.items| ensures Survives(v.items[i], f) {
        assert ds[i] == Ok(v.items[i]);
      }
    }
  }

  lemma ObjEncodes(v: Value, f: Formats)
    requires v.Obj? && DatesValid(v)
    ensures Encode(v, f).Ok? && Encode(v, f).value.Obj? && |Encode(v, f).value.entries| == |v.entries|
    ensures var es := Encode(v, f).value.entries;
            forall i :: 0 <= i < |es| ==> Encode(v.entries[i].value, f) == Ok(es[i].value) && es[i].key == v.entries[i].key
    ensures Tagged(Encode(v, f).value, "$binary") <==> Tagged(v, "$binary")
    ensures Tagged(Encode(v, f).value, "$date") <==> Tagged(v, "$date")
  {
    EncodeWorks(v, f);
    var es := Encode(v, f).value.entries;
    forall i | 0 <= i < |es| ensures Encode(v.entries[i].value, f) == Ok(es[i].value) && es[i].key == v.entries[i].key {
    }
    if |es| == 1 { EncodeWorks(v.entries[0].value, f); }
  }

  lemma EntriesDecode(es: seq<Entry>, entries: seq<Entry>, f: Formats)
    requires |es| == |entries| && !Tagged(Obj(es), "$binary") && !Tagged(Obj(es), "$date")
    requires forall i :: 0 <= i < |es| ==> es[i].key == entries[i].key
    ensures Decode(Obj(es), f) == Ok(Obj(entries)) <==> forall i :: 0 <= i < |es| ==> Decode(es[i].value, f) == Ok(entries[i].value)
  {
    var n := |es|;
    var ds := seq(n, i requires 0 <= i < n => Decode(es[i].value, f));
    if forall i :: 0 <= i < n ==> Decode(es[i].value, f) == Ok(entries[i].value) {
      CollectOk(ds, seq(n, i requires 0 <= i < n => entries[i].value));
      assert Decode(Obj(es), f).value.entries == entries;
    }
    if Decode(Obj(es), f) == Ok(Obj(entries)) {
      forall i | 0 <= i < n ensures Decode(es[i].value, f) == Ok(entries[i].value) {
        assert ds[i] == Ok(Decode(Obj(es), f).value.entries[i].value);
      }
    }
  }

  lemma ObjSurvives(v: Value, f: Formats)
    requires v.Obj? && DatesValid(v)
    ensures Survives(v, f) <==>
            && !Tagged(v, "$binary") && !Tagged(v, "$date")
            && forall i :: 0 <= i < |v.entries| ==> Survives(v.entries[i].value, f)
  {
    ObjEncodes(v, f);
    var es := Encode(v, f).value.entries;
    assert forall i :: 0 <= i < |es| ==> (Survives(v.entries[i].value, f) <==> Decode(es[i].value, f) == Ok(v.entries[i].value));
    if !Tagged(v, "$binary") && !Tagged(v, "$date") { EntriesDecode(es, v.entries, f); }
  }

  // ---- re-encoding what was decoded ----

  /** Every tagged string is the one encoding would write. */
  ghost predicate Canonical(v: Value, f: Formats) {
    && (Tagged(v, "$binary") ==>
          var b := f.readBase64(v.entries[0].value.text); b.Some? && f.base64(b.value) == v.entries[0].value.text)
    && (Tagged(v, "$date") ==>
          var t := f.readIso(v.entries[0].value.text); t.Some? && f.iso(t.value) == v.entries[0].value.text)
    && (v.Arr? ==> forall i :: 0 <= i < |v.items| ==> Canonical(v.items[i], f))
    && (v.Obj? ==> forall i :: 0 <= i < |v.entries| ==> Canonical(v.entries[i].value, f))
  }

  /** A decoded value is never disguised, and encoding it gives back the plain value if that was canonical. */
  lemma {:induction false} DecodedSurvives(p: Value, f: Formats)
    requires Plain(p) && Decode(p, f).Ok?
    ensures var v := Decode(p, f).value;
            && DatesValid(v) && Undisguised(v) && (v.Str? <==> p.Str?)
            && (Encode(v, f) == Ok(p) <==> Canonical(p, f))
  {
    var v := Decode(p, f).value;
    if Tagged(p, "$binary") || Tagged(p, "$date") {
      var text := p.entries[0].value.text;
      assert p == Obj([Entry(p.entries[0].key, Str(text))]);
    } else if p.Arr? {
      var ds := seq(|p.items|, i requires 0 <= i < |p.items| => Decode(p.items[i], f));
      forall i | 0 <= i < |p.items|
        ensures ds[i] == Ok(v.items[i]) && DatesValid(v.items[i]) && Undisguised(v.items[i])
        ensures Encode(v.items[i], f) == Ok(p.items[i]) <==> Canonical(p.items[i], f)
      {
        assert Collect(ds) == Ok(v.items) && ds[i] == Decode(p.items[i], f);
        DecodedSurvives(p.items[i], f);
      }
      ItemsEncode(v, p, f);
    } else if p.Obj? {
      var ds := seq(|p.entries|, i requires 0 <= i < |p.entries| => Decode(p.entries[i].value, f));
      forall i | 0 <= i < |p.entries|
        ensures ds[i] == Ok(v.entries[i].value) && DatesValid(v.entries[i].value) && Undisguised(v.entries[i].value)
        ensures v.entries[i].key == p.entries[i].key && (v.entries[i].value.Str? <==> p.entries[i].value.Str?)
        ensures Encode(v.entries[i].value, f) == Ok(p.entries[i].value) <==> Canonical(p.entries[i].value, f)
      {
        assert Collect(ds).Ok? && ds[i] == Decode(p.entries[i].value, f);
        DecodedSurvives(p.entries[i].value, f);
      }
      EntriesEncode(v, p, f);
    }
  }

  lemma ItemsEncode(v: Value, p: Value, f: Formats)
    requires v.Arr? && p.Arr? && |v.items| == |p.items|
    ensures Encode(v, f) == Ok(p) <==> forall i :: 0 <= i < |p.items| ==> Encode(v.items[i], f) == Ok(p.items[i])
  {
    var rs := seq(|v.items|, i requires 0 <= i < |v.items| => Encode(v.items[i], f));
    if forall i :: 0 <= i < |p.items| ==> Encode(v.items[i], f) == Ok(p.items[i]) {
      CollectOk(rs, p.items);
    }
    if Encode(v, f) == Ok(p) {
      forall i | 0 <= i < |p.items| ensures Encode(v.items[i], f) == Ok(p.items[i]) {
        assert rs[i] == Ok(p.items[i]);
      }
    }
  }

  lemma EntriesEncode(v: Value, p: Value, f: Formats)
    requires v.Obj? && p.Obj? && |v.entries| == |p.entries|
    requires forall i :: 0 <= i < |p.entries| ==> v.entries[i].key == p.entries[i].key
    ensures Encode(v, f) == Ok(p) <==> forall i :: 0 <= i < |p.entries| ==> Encode(v.entries[i].value, f) == Ok(p.entries[i].value)
  {
    var n := |p.entries|;
    var rs := seq(|v.entries|, i requires 0 <= i < |v.entries| => Encode(v.entries[i].value, f));
    if forall i :: 0 <= i < n ==> Encode(v.entries[i].value, f) == Ok(p.entries[i].value) {
      CollectOk(rs, seq(n, i requires 0 <= i < n => p.entries[i].value));
      assert Encode(v, f).value.entries == p.entries;
    }
    if Encode(v, f) == Ok(p) {
      forall i | 0 <= i < n ensures Encode(v.entries[i].value, f) == Ok(p.entries[i].value) {
        assert rs[i] == Ok(p.entries[i].value);
      }
    }
  }

  /** Decoding is stable: whatever was decoded once encodes, and decodes to the same value again. */
  lemma DecodingIsStable(p: Value, f: Formats)
    requires ValuesReadBack(f) && Plain(p) && Decode(p, f).Ok?
    ensures Survives(Decode(p, f).value, f)
  {
    DecodedSurvives(p, f);
    SurvivesExactly(Decode(p, f).value, f);
  }
}
