/** The laws the archive theorems ask of the text formats can be met: self-delimiting formats that meet them. */
module ArchiveFormats {
  import opened Common
  import opened Text
  import opened ArchiveValue
  import opened ArchiveFile
  import opened ArchiveText
  import opened ArchiveWriter

  // ---- self-delimiting texts ----

  lemma FirstAlike(c: char, r: string, d: char, q: string)
    requires [c] + r == [d] + q
    ensures c == d && r == q
  {
    assert ([c] + r)[0] == c && ([d] + q)[0] == d;
    assert ([c] + r)[1..] == r && ([d] + q)[1..] == q;
  }

  function Unary(n: nat): string {
    if n == 0 then "0" else "1" + Unary(n - 1)
  }

  lemma {:induction false} UnaryDelimits(n: nat, m: nat, r: string, q: string)
    requires Unary(n) + r == Unary(m) + q
    ensures n == m && r == q
  {
    var a, b := Unary(n) + r, Unary(m) + q;
    assert a[0] == Unary(n)[0] && b[0] == Unary(m)[0];
    if n == 0 || m == 0 {
      assert r == a[1..] && q == b[1..];
    } else {
      assert a[1..] == Unary(n - 1) + r && b[1..] == Unary(m - 1) + q;
      UnaryDelimits(n - 1, m - 1, r, q);
    }
  }

  function IntText(n: int): string {
    [if n < 0 then '-' else '+'] + Unary(if n < 0 then -n else n)
  }

  lemma IntDelimits(n: int, m: int, r: string, q: string)
    requires IntText(n) + r == IntText(m) + q
    ensures n == m && r == q
  {
    var c, d := if n < 0 then '-' else '+', if m < 0 then '-' else '+';
    var n', m' := if n < 0 then -n else n, if m < 0 then -m else m;
    Regroup([c], Unary(n'), r);
    Regroup([d], Unary(m'), q);
    FirstAlike(c, Unary(n') + r, d, Unary(m') + q);
    UnaryDelimits(n', m', r, q);
  }

  /** Each character by its number, so that no character stands for itself. */
  function StringText(s: string): string {
    if s == "" then "0" else "1" + (Unary(s[0] as int) + StringText(s[1..]))
  }

  lemma {:induction false} StringDelimits(s: string, t: string, r: string, q: string)
    requires StringText(s) + r == StringText(t) + q
    ensures s == t && r == q
  {
    var c, d := if s == "" then '0' else '1', if t == "" then '0' else '1';
    var s', t' := StringText(s)[1..], StringText(t)[1..];
    assert StringText(s) == [c] + s' && StringText(t) == [d] + t';
    Regroup([c], s', r);
    Regroup([d], t', q);
    FirstAlike(c, s' + r, d, t' + q);
    if s == "" {
      assert "" + r == r && "" + q == q;
    } else {
      var n, m := s[0] as int, t[0] as int;
      Regroup(Unary(n), StringText(s[1..]), r);
      Regroup(Unary(m), StringText(t[1..]), q);
      UnaryDelimits(n, m, StringText(s[1..]) + r, StringText(t[1..]) + q);
      StringDelimits(s[1..], t[1..], r, q);
      assert s == [s[0]] + s[1..] && t == [t[0]] + t[1..];
    }
  }

  ghost function NumberText(x: real): string
    requires IsDouble(x)
  {
    var m: int, e: int :| FitsDouble(m, e) && x == Scaled(m, e);
    IntText(m) + IntText(e)
  }

  lemma NumberDelimits(x: real, y: real, r: string, q: string)
    requires IsDouble(x) && IsDouble(y) && NumberText(x) + r == NumberText(y) + q
    ensures x == y && r == q
  {
    var m: int, e: int :| FitsDouble(m, e) && x == Scaled(m, e) && NumberText(x) == IntText(m) + IntText(e);
    var n: int, d: int :| FitsDouble(n, d) && y == Scaled(n, d) && NumberText(y) == IntText(n) + IntText(d);
    Regroup(IntText(m), IntText(e), r);
    Regroup(IntText(n), IntText(d), q);
    IntDelimits(m, n, IntText(e) + r, IntText(d) + q);
    IntDelimits(e, d, r, q);
  }

  function Concat(parts: seq<string>): string {
    if parts == [] then "" else parts[0] + Concat(parts[1..])
  }

  /** A value that JSON text can carry. */
  ghost predicate Storable(v: Value) {
    Plain(v) && Representable(v)
  }

  ghost function Texts(v: Value): seq<string>
    requires Storable(v)
    decreases v, 0
  {
    match v
    case Arr(items) => seq(|items|, i requires 0 <= i < |items| => TextOf(items[i]))
    case Obj(entries) => seq(|entries|, i requires 0 <= i < |entries| => StringText(entries[i].key) + TextOf(entries[i].value))
    case _ => []
  }

  ghost function TextOf(v: Value): string
    requires Storable(v)
    decreases v, 2
  {
    [Tag(v)] + Body(v)
  }

  function Tag(v: Value): char {
    match v
    case Null => 'n'
    case Bool(flag) => if flag then 't' else 'f'
    case Num(_) => 'd'
    case Str(_) => 's'
    case Arr(_) => 'a'
    case Obj(_) => '{'
    case Date(_) => 'x'
    case Bytes(_) => 'x'
  }

  ghost function Body(v: Value): string
    requires Storable(v)
    decreases v, 1
  {
    match v
    case Num(x) => NumberText(x)
    case Str(s) => StringText(s)
    case Arr(items) => Unary(|items|) + Concat(Texts(v))
    case Obj(entries) => Unary(|entries|) + Concat(Texts(v))
    case _ => ""
  }

  /** A text followed by anything determines its value and what follows. */
  lemma {:induction false} TextDelimits(v: Value, w: Value, r: string, q: string)
    requires Storable(v) && Storable(w) && TextOf(v) + r == TextOf(w) + q
    ensures v == w && r == q
    decreases v, 2, 0
  {
    Regroup([Tag(v)], Body(v), r);
    Regroup([Tag(w)], Body(w), q);
    FirstAlike(Tag(v), Body(v) + r, Tag(w), Body(w) + q);
    BodyDelimits(v, w, r, q);
  }

  lemma {:induction false} BodyDelimits(v: Value, w: Value, r: string, q: string)
    requires Storable(v) && Storable(w) && Tag(v) == Tag(w) && Body(v) + r == Body(w) + q
    ensures v == w && r == q
    decreases v, 1, 0
  {
    if v.Num? {
      NumberDelimits(v.number, w.number, r, q);
    } else if v.Str? {
      StringDelimits(v.text, w.text, r, q);
    } else if v.Arr? || v.Obj? {
      Regroup(Unary(Size(v)), Concat(Texts(v)), r);
      Regroup(Unary(Size(w)), Concat(Texts(w)), q);
      UnaryDelimits(Size(v), Size(w), Concat(Texts(v)) + r, Concat(Texts(w)) + q);
      assert Texts(v)[0..] == Texts(v) && Texts(w)[0..] == Texts(w);
      PartsDelimit(v, w, 0, r, q);
      WholeParts(v, w);
    } else {
      assert Body(v) + r == r && Body(w) + q == q;
    }
  }

  lemma WholeParts(v: Value, w: Value)
    ensures v.Arr? && w.Arr? && v.items[0..] == w.items[0..] ==> v == w
    ensures v.Obj? && w.Obj? && v.entries[0..] == w.entries[0..] ==> v == w
  {
    if v.Arr? && w.Arr? { assert v.items[0..] == v.items && w.items[0..] == w.items; }
    if v.Obj? && w.Obj? { assert v.entries[0..] == v.entries && w.entries[0..] == w.entries; }
  }

  ghost function Size(v: Value): nat {
    if v.Arr? then |v.items| else if v.Obj? then |v.entries| else 0
  }

  /** The parts from `i` on agree, one after the other. */
  lemma {:induction false} PartsDelimit(v: Value, w: Value, i: nat, r: string, q: string)
    requires Storable(v) && Storable(w) && ((v.Arr? && w.Arr?) || (v.Obj? && w.Obj?)) && Size(v) == Size(w) && i <= Size(v)
    requires Concat(Texts(v)[i..]) + r == Concat(Texts(w)[i..]) + q
    ensures r == q
    ensures v.Arr? ==> v.items[i..] == w.items[i..]
    ensures v.Obj? ==> v.entries[i..] == w.entries[i..]
    decreases v, 0, Size(v) - i
  {
    if i < Size(v) {
      var restV, restW := Concat(Texts(v)[i + 1..]), Concat(Texts(w)[i + 1..]);
      ConcatNext(Texts(v), i, r);
      ConcatNext(Texts(w), i, q);
      PartDelimits(v, w, i, restV + r, restW + q);
      PartsDelimit(v, w, i + 1, r, q);
      TailsAgree(v, w, i);
    } else {
      assert Texts(v)[i..] == [] && Texts(w)[i..] == [];
      assert "" + r == r && "" + q == q;
    }
  }

  lemma ConcatNext(texts: seq<string>, i: nat, r: string)
    requires i < |texts|
    ensures Concat(texts[i..]) + r == texts[i] + (Concat(texts[i + 1..]) + r)
  {
    assert texts[i..][1..] == texts[i + 1..];
    Regroup(texts[i], Concat(texts[i + 1..]), r);
  }

  lemma TailsAgree(v: Value, w: Value, i: nat)
    requires Size(v) == Size(w) && i < Size(v)
    ensures v.Arr? && w.Arr? && v.items[i] == w.items[i] && v.items[i + 1..] == w.items[i + 1..] ==> v.items[i..] == w.items[i..]
    ensures v.Obj? && w.Obj? && v.entries[i] == w.entries[i] && v.entries[i + 1..] == w.entries[i + 1..] ==> v.entries[i..] == w.entries[i..]
  {
    if v.Arr? && w.Arr? {
      assert v.items[i..] == [v.items[i]] + v.items[i + 1..] && w.items[i..] == [w.items[i]] + w.items[i + 1..];
    } else if v.Obj? && w.Obj? {
      assert v.entries[i..] == [v.entries[i]] + v.entries[i + 1..] && w.entries[i..] == [w.entries[i]] + w.entries[i + 1..];
    }
  }

  lemma {:induction false} PartDelimits(v: Value, w: Value, i: nat, r: string, q: string)
    requires Storable(v) && Storable(w) && ((v.Arr? && w.Arr?) || (v.Obj? && w.Obj?)) && Size(v) == Size(w) && i < Size(v)
    requires Texts(v)[i] + r == Texts(w)[i] + q
    ensures r == q
    ensures v.Arr? ==> v.items[i] == w.items[i]
    ensures v.Obj? ==> v.entries[i] == w.entries[i]
    decreases v, 0, 0
  {
    if v.Arr? {
      TextDelimits(v.items[i], w.items[i], r, q);
    } else {
      var x, y := v.entries[i], w.entries[i];
      Regroup(StringText(x.key), TextOf(x.value), r);
      Regroup(StringText(y.key), TextOf(y.value), q);
      StringDelimits(x.key, y.key, TextOf(x.value) + r, TextOf(y.value) + q);
      TextDelimits(x.value, y.value, r, q);
    }
  }

  // ---- no line ends ----

  lemma {:induction false} UnaryIsOneLine(n: nat)
    ensures Clean(Unary(n))
  {
    if n > 0 { UnaryIsOneLine(n - 1); }
  }

  lemma {:induction false} StringIsOneLine(s: string)
    ensures Clean(StringText(s))
  {
    if s != "" {
      UnaryIsOneLine(s[0] as int);
      StringIsOneLine(s[1..]);
    }
  }

  lemma IntIsOneLine(n: int)
    ensures Clean(IntText(n))
  {
    UnaryIsOneLine(if n < 0 then -n else n);
  }

  lemma NumberIsOneLine(x: real)
    requires IsDouble(x)
    ensures Clean(NumberText(x))
  {
    var m: int, e: int :| FitsDouble(m, e) && x == Scaled(m, e) && NumberText(x) == IntText(m) + IntText(e);
    IntIsOneLine(m);
    IntIsOneLine(e);
  }

  lemma {:induction false} ConcatIsOneLine(parts: seq<string>)
    requires forall i :: 0 <= i < |parts| ==> Clean(parts[i])
    ensures Clean(Concat(parts))
  {
    if parts != [] {
      assert Clean(parts[0]);
      ConcatIsOneLine(parts[1..]);
    }
  }

  lemma {:induction false} TextIsOneLine(v: Value)
    requires Storable(v)
    ensures Clean(TextOf(v))
  {
    if v.Num? {
      NumberIsOneLine(v.number);
    } else if v.Str? {
      StringIsOneLine(v.text);
    } else if v.Arr? {
      forall i | 0 <= i < |v.items| ensures Clean(Texts(v)[i]) { TextIsOneLine(v.items[i]); }
      ConcatIsOneLine(Texts(v));
      UnaryIsOneLine(|v.items|);
    } else if v.Obj? {
      forall i | 0 <= i < |v.entries| ensures Clean(Texts(v)[i]) {
        StringIsOneLine(v.entries[i].key);
        TextIsOneLine(v.entries[i].value);
      }
      ConcatIsOneLine(Texts(v));
      UnaryIsOneLine(|v.entries|);
    }
  }

  // ---- the formats ----

  ghost function Write(v: Value): string {
    if Storable(v) then TextOf(v) else "x"
  }

  ghost function Read(s: string): Option<Value> {
    if exists v :: Storable(v) && TextOf(v) == s then
      var v :| Storable(v) && TextOf(v) == s;
      Some(v)
    else None
  }

  lemma ReadsWritten(v: Value)
    requires Storable(v)
    ensures Read(Write(v)) == Some(v) && !Blank(Write(v))
  {
    var s := TextOf(v);
    var w :| Storable(w) && TextOf(w) == s && Read(s) == Some(w);
    assert TextOf(w) + "" == TextOf(v) + "";
    TextDelimits(w, v, "", "");
    assert !IsSpace(s[0]);
  }

  /** No text is the start of another. */
  lemma StartsReadNothing(v: Value, n: nat)
    requires Storable(v) && n < |TextOf(v)|
    ensures Read(TextOf(v)[..n]).None?
  {
    var s := TextOf(v);
    if Read(s[..n]).Some? {
      var w :| Storable(w) && TextOf(w) == s[..n];
      assert TextOf(w) + s[n..] == s == s + "";
      TextDelimits(w, v, s[n..], "");
    }
  }

  lemma RecordsDelimited(v: Value, f: Formats)
    requires Storable(v) && v.Obj? && f.json(v) == TextOf(v) && forall s :: f.readJson(s) == Read(s)
    ensures Delimited(f.json(v), f)
  {
    forall n | 0 <= n < |TextOf(v)| ensures Read(TextOf(v)[..n]).None? { StartsReadNothing(v, n); }
  }

  ghost function ByteText(b: seq<bv8>): string {
    seq(|b|, i requires 0 <= i < |b| => b[i] as char)
  }

  ghost function ReadBytes(s: string): Option<seq<bv8>> {
    if exists b :: ByteText(b) == s then
      var b :| ByteText(b) == s;
      Some(b)
    else None
  }

  lemma BytesRead(b: seq<bv8>)
    ensures ReadBytes(ByteText(b)) == Some(b)
  {
    var c :| ByteText(c) == ByteText(b) && ReadBytes(ByteText(b)) == Some(c);
    assert |ByteText(c)| == |c| && |ByteText(b)| == |b|;
    forall i | 0 <= i < |b| ensures c[i] == b[i] {
      assert ByteText(c)[i] == ByteText(b)[i];
    }
    assert c == b;
  }

  ghost function ReadTime(s: string): Option<Time> {
    if exists t: Time :: IntText(t) == s then
      var t: Time :| IntText(t) == s;
      Some(t)
    else None
  }

  lemma TimeReads(t: Time)
    ensures ReadTime(IntText(t)) == Some(t)
  {
    var u: Time :| IntText(u) == IntText(t) && ReadTime(IntText(t)) == Some(u);
    IntDelimits(u, t, "", "");
  }

  /** There are formats that meet all laws the archive theorems ask for. */
  lemma LawsCanBeMet() returns (f: Formats)
    ensures Lawful(f)
  {
    var digest := seq(64, i => 'a');
    f := Formats(b => ByteText(b), s => ReadBytes(s), t => IntText(t), s => ReadTime(s), v => Write(v), s => Read(s), s => digest);
    forall b: seq<bv8> ensures f.readBase64(f.base64(b)) == Some(b) { BytesRead(b); }
    forall t: Time ensures f.readIso(f.iso(t)) == Some(t) { TimeReads(t); }
    forall v: Value | Plain(v) && Representable(v) ensures f.readJson(f.json(v)) == Some(v) && !Blank(f.json(v)) { ReadsWritten(v); }
    forall v: Value | Plain(v) && Representable(v) ensures Clean(f.json(v)) { TextIsOneLine(v); }
    forall v: Value | Plain(v) && Representable(v) && v.Obj? ensures Delimited(f.json(v), f) { RecordsDelimited(v, f); }
    assert forall s: string :: f.readJson(s).Some? ==> Plain(f.readJson(s).value);
  }
}
