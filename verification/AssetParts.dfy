/** Splitting an asset into numbered parts: the importer's re-chunking and the store's part arithmetic. */
module AssetParts {
  import opened Common
  import opened Sorting
  import opened Counting

  type Bytes = seq<bv8>

  const MAX_PART_BYTES: nat := 16 * 1024 * 1024

  function Flatten(parts: seq<Bytes>): Bytes {
    if parts == [] then [] else Flatten(parts[..|parts| - 1]) + parts[|parts| - 1]
  }

  /** Full chunks, and a last one with what is left. */
  function Chunks(body: Bytes, chunk: nat): seq<Bytes>
    requires chunk > 0
  {
    if body == [] then [] else if |body| <= chunk then [body] else [body[..chunk]] + Chunks(body[chunk..], chunk)
  }

  // ---- the arithmetic ----

  /** The quotient, rounded up. */
  function PartCount(size: nat, chunk: nat): nat
    requires chunk > 0
  {
    (size + chunk - 1) / chunk
  }

  function ExpectedSize(declared: nat, chunk: nat, number: nat): int
    requires chunk > 0
  {
    var n := PartCount(declared, chunk);
    if number == n then declared - chunk * (n - 1) else chunk
  }

  predicate ExpectedPart(declared: nat, chunk: nat, number: nat, size: nat)
    requires chunk > 0
  {
    1 <= number <= PartCount(declared, chunk) && size == ExpectedSize(declared, chunk, number)
  }

  /** One part fewer for one chunk less. */
  lemma PartCountStep(size: nat, chunk: nat)
    requires chunk > 0
    ensures size == 0 ==> PartCount(size, chunk) == 0
    ensures 0 < size <= chunk ==> PartCount(size, chunk) == 1
    ensures size > chunk ==> PartCount(size, chunk) == PartCount(size - chunk, chunk) + 1
  {
    if size > chunk {
      DivideStep(size - 1, chunk);
    } else if size > 0 {
      DivideStep(size + chunk - 1, chunk);
      assert 0 <= size - 1 < chunk;
      assert (size - 1) / chunk == 0;
    }
  }

  lemma DivideStep(a: nat, c: nat)
    requires c > 0
    ensures (a + c) / c == a / c + 1
    ensures a >= c ==> a / c == (a - c) / c + 1
  {
    Quotient(a, c, a / c, a % c);
    Quotient(a + c, c, a / c + 1, a % c);
    if a >= c { Quotient(a - c, c, a / c - 1, a % c); }
  }

  lemma Quotient(a: int, c: nat, q: int, r: nat)
    requires c > 0 && a == c * q + r && r < c
    ensures a / c == q
  {
    var d := a / c - q;
    assert a == c * (a / c) + a % c;
    assert c * d == r - a % c;
    Multiples(c, d);
  }

  lemma Multiples(c: nat, d: int)
    ensures d >= 1 ==> c * d >= c
    ensures d <= -1 ==> c * d + c <= 0
  {
    if d >= 1 {
      assert c * d == c + c * (d - 1);
    } else if d <= -1 {
      assert c * d == c * (d + 1) - c;
    }
  }

  lemma ExpectedSizeStep(size: nat, chunk: nat, number: nat)
    requires chunk > 0 && size > chunk && number >= 1
    ensures ExpectedSize(size, chunk, number + 1) == ExpectedSize(size - chunk, chunk, number)
    ensures ExpectedSize(size, chunk, 1) == chunk
  {
    PartCountStep(size, chunk);
    PartCountStep(size - chunk, chunk);
    var n := PartCount(size - chunk, chunk);
    assert chunk * n == chunk * (n - 1) + chunk;
  }

  lemma {:induction false} ChunksFlatten(body: Bytes, chunk: nat)
    requires chunk > 0
    ensures Flatten(Chunks(body, chunk)) == body
    decreases |body|
  {
    var parts := Chunks(body, chunk);
    if 0 < |body| <= chunk {
      assert Flatten(parts[..0]) == [];
    } else if |body| > chunk {
      ChunksFlatten(body[chunk..], chunk);
      FlattenCons(body[..chunk], Chunks(body[chunk..], chunk));
    }
  }

  lemma {:induction false} ChunksCounted(body: Bytes, chunk: nat)
    requires chunk > 0
    ensures |Chunks(body, chunk)| == PartCount(|body|, chunk)
    decreases |body|
  {
    PartCountStep(|body|, chunk);
    if |body| > chunk { ChunksCounted(body[chunk..], chunk); }
  }

  lemma {:induction false} ChunkExpected(body: Bytes, chunk: nat, k: nat)
    requires chunk > 0 && k < |Chunks(body, chunk)|
    ensures ExpectedPart(|body|, chunk, k + 1, |Chunks(body, chunk)[k]|)
    decreases |body|
  {
    ChunksCounted(body, chunk);
    if |body| > chunk {
      ExpectedSizeStep(|body|, chunk, if k == 0 then 1 else k);
      if k > 0 {
        ChunksCounted(body[chunk..], chunk);
        ChunkExpected(body[chunk..], chunk, k - 1);
      }
    }
  }

  /** The parts of a body have the declared count and the expected sizes, and are the body. */
  lemma ChunksAreExpected(body: Bytes, chunk: nat)
    requires chunk > 0
    ensures Flatten(Chunks(body, chunk)) == body
    ensures |Chunks(body, chunk)| == PartCount(|body|, chunk)
    ensures forall k :: 0 <= k < |Chunks(body, chunk)| ==> ExpectedPart(|body|, chunk, k + 1, |Chunks(body, chunk)[k]|)
  {
    ChunksFlatten(body, chunk);
    ChunksCounted(body, chunk);
    forall k | 0 <= k < |Chunks(body, chunk)| ensures ExpectedPart(|body|, chunk, k + 1, |Chunks(body, chunk)[k]|) {
      ChunkExpected(body, chunk, k);
    }
  }

  lemma {:induction false} FlattenCons(first: Bytes, rest: seq<Bytes>)
    ensures Flatten([first] + rest) == first + Flatten(rest)
  {
    var all := [first] + rest;
    if rest == [] {
      assert all[..0] == [] && Flatten(all) == [] + first;
    } else {
      assert all[..|all| - 1] == [first] + rest[..|rest| - 1];
      FlattenCons(first, rest[..|rest| - 1]);
    }
  }

  /** Every expected size is between one byte and a chunk, and together they are the declared size. */
  lemma {:induction false} ExpectedSizesCover(declared: nat, chunk: nat, sizes: seq<nat>)
    requires chunk > 0 && |sizes| == PartCount(declared, chunk)
    requires forall k :: 0 <= k < |sizes| ==> ExpectedPart(declared, chunk, k + 1, sizes[k])
    ensures forall k :: 0 <= k < |sizes| ==> 1 <= sizes[k] <= chunk
    ensures Sum(sizes) == declared
    decreases declared
  {
    PartCountStep(declared, chunk);
    if declared > chunk {
      ExpectedSizeStep(declared, chunk, 1);
      assert ExpectedPart(declared, chunk, 0 + 1, sizes[0]);
      var rest := sizes[1..];
      forall k | 0 <= k < |rest| ensures ExpectedPart(declared - chunk, chunk, k + 1, rest[k]) {
        ExpectedSizeStep(declared, chunk, k + 1);
        assert ExpectedPart(declared, chunk, k + 1 + 1, sizes[k + 1]);
      }
      ExpectedSizesCover(declared - chunk, chunk, rest);
      forall k | 0 <= k < |sizes| ensures 1 <= sizes[k] <= chunk {
        if k > 0 { assert sizes[k] == rest[k - 1]; }
      }
    } else if declared > 0 {
      assert ExpectedPart(declared, chunk, 0 + 1, sizes[0]);
      assert sizes == [sizes[0]] && sizes[1..] == [];
    }
  }

  function Sum(sizes: seq<nat>): nat {
    if sizes == [] then 0 else sizes[0] + Sum(sizes[1..])
  }

  /** Parts that are all full except for a shorter, non-empty last one are the chunks of what they hold. */
  lemma {:induction false} FullPartsAreChunks(full: seq<Bytes>, last: Bytes, chunk: nat)
    requires chunk > 0 && |last| <= chunk && forall k :: 0 <= k < |full| ==> |full[k]| == chunk
    ensures Chunks(Flatten(full) + last, chunk) == full + (if last == [] then [] else [last])
    decreases |full|
  {
    if full == [] {
      assert Flatten(full) + last == last;
    } else {
      var rest := full[1..];
      FlattenCons(full[0], rest);
      assert full == [full[0]] + rest;
      var body, tail := Flatten(full) + last, Flatten(rest) + last;
      assert body == full[0] + tail;
      assert body[..chunk] == full[0] && body[chunk..] == tail;
      FullPartsAreChunks(rest, last, chunk);
      if tail == [] {
        ChunksAreExpected(tail, chunk);
        assert rest == [];
      }
    }
  }

  // ---- the store's upload ----

  /** A row of the part table. */
  datatype Part = Part(number: nat, content: Bytes)

  datatype StoreError = Quota | Invalid

  ghost predicate DistinctNumbers(parts: seq<Part>) {
    forall i, j :: 0 <= i < j < |parts| ==> parts[i].number != parts[j].number
  }

  /** The bytes of all parts but one. */
  function SumOthers(parts: seq<Part>, number: nat): nat {
    if parts == [] then 0 else (if parts[0].number == number then 0 else |parts[0].content|) + SumOthers(parts[1..], number)
  }

  function Total(parts: seq<Part>): nat {
    if parts == [] then 0 else |parts[0].content| + Total(parts[1..])
  }

  /** Replaces the row of this number, or appends one. */
  function Upsert(parts: seq<Part>, p: Part): seq<Part> {
    if parts == [] then [p]
    else if parts[0].number == p.number then [p] + parts[1..]
    else [parts[0]] + Upsert(parts[1..], p)
  }

  predicate ByNumber(a: Part, b: Part) {
    a.number <= b.number
  }

  function InOrder(parts: seq<Part>): seq<Part> {
    SortBy(parts, ByNumber)
  }

  function Contents(parts: seq<Part>): seq<Bytes> {
    seq(|parts|, i requires 0 <= i < |parts| => parts[i].content)
  }

  /** What the object store makes of the parts. */
  function ObjectOf(parts: seq<Part>): Bytes {
    Flatten(Contents(InOrder(parts)))
  }

  function Numbered(contents: seq<Bytes>): seq<Part> {
    seq(|contents|, i requires 0 <= i < |contents| => Part(i + 1, contents[i]))
  }

  lemma {:induction false} UpsertMembers(parts: seq<Part>, p: Part)
    requires DistinctNumbers(parts)
    ensures forall q :: q in Upsert(parts, p) <==> q == p || (q in parts && q.number != p.number)
  {
    if parts != [] {
      var rest := parts[1..];
      assert parts == [parts[0]] + rest;
      if parts[0].number != p.number { UpsertMembers(rest, p); }
    }
  }

  lemma {:induction false} UpsertDistinct(parts: seq<Part>, p: Part)
    requires DistinctNumbers(parts)
    ensures DistinctNumbers(Upsert(parts, p))
  {
    if parts != [] && parts[0].number != p.number {
      var first, r := parts[0], Upsert(parts[1..], p);
      UpsertDistinct(parts[1..], p);
      UpsertMembers(parts[1..], p);
      forall i | 0 <= i < |r| ensures r[i].number != first.number {
        assert r[i] in r;
      }
      assert Upsert(parts, p) == [first] + r;
    }
  }

  lemma {:induction false} UpsertTotal(parts: seq<Part>, p: Part)
    requires DistinctNumbers(parts)
    ensures Total(Upsert(parts, p)) == SumOthers(parts, p.number) + |p.content|
  {
    if parts != [] {
      var rest := parts[1..];
      if parts[0].number == p.number {
        OthersAreAll(rest, p.number);
        assert ([p] + rest)[1..] == rest;
      } else {
        UpsertTotal(rest, p);
        assert ([parts[0]] + Upsert(rest, p))[1..] == Upsert(rest, p);
      }
    }
  }

  lemma UpsertMeaning(parts: seq<Part>, p: Part)
    requires DistinctNumbers(parts)
    ensures DistinctNumbers(Upsert(parts, p))
    ensures forall q :: q in Upsert(parts, p) <==> q == p || (q in parts && q.number != p.number)
    ensures Total(Upsert(parts, p)) == SumOthers(parts, p.number) + |p.content|
  {
    UpsertMembers(parts, p);
    UpsertDistinct(parts, p);
    UpsertTotal(parts, p);
  }

  lemma {:induction false} OthersAreAll(parts: seq<Part>, number: nat)
    requires forall i :: 0 <= i < |parts| ==> parts[i].number != number
    ensures SumOthers(parts, number) == Total(parts)
  {
    if parts != [] { OthersAreAll(parts[1..], number); }
  }

  class Upload {
    const declared: nat
    const chunk: nat
    var parts: seq<Part>

    predicate Sized()
    {
      declared > 0 && 0 < chunk <= MAX_PART_BYTES
    }

    ghost predicate Valid()
      reads this
    {
      && Sized() && DistinctNumbers(parts) && Total(parts) <= declared
      && forall p :: p in parts ==> 1 <= p.number <= PartCount(declared, chunk) && 1 <= |p.content| <= MAX_PART_BYTES
    }

    constructor (declared: nat, chunk: nat)
      requires declared > 0 && 0 < chunk <= MAX_PART_BYTES
      ensures Valid() && parts == [] && this.declared == declared && this.chunk == chunk
    {
      this.declared, this.chunk, parts := declared, chunk, [];
    }

    /** Stores or replaces one part; its size need not be the expected one, but the total never exceeds the declared size. */
    method WritePart(number: nat, content: Bytes) returns (r: Result<(), StoreError>)
      requires Valid()
      modifies this
      ensures Valid()
      ensures r.Ok? <==>
              && 1 <= number <= PartCount(declared, chunk) && 1 <= |content| <= MAX_PART_BYTES
              && SumOthers(old(parts), number) + |content| <= declared
      ensures parts == if r.Ok? then Upsert(old(parts), Part(number, content)) else old(parts)
    {
      if number < 1 { return Err(Invalid); }
      if |content| == 0 || |content| > MAX_PART_BYTES { return Err(Quota); }
      if number > PartCount(declared, chunk) { return Err(Invalid); }
      if SumOthers(parts, number) + |content| > declared { return Err(Quota); }
      UpsertMeaning(parts, Part(number, content));
      parts := Upsert(parts, Part(number, content));
      r := Ok(());
    }

    /** Accepts the upload when every part number is there and the bytes add up to the declared size. */
    method CompleteUpload() returns (r: Result<Bytes, StoreError>)
      requires Valid()
      ensures r.Ok? <==> Covered(parts, PartCount(declared, chunk)) && Total(parts) == declared
      ensures r.Ok? ==> r.value == ObjectOf(parts) && |r.value| == declared
    {
      var sorted := InOrder(parts);
      var n := PartCount(declared, chunk);
      PartsCovered(parts, n);
      if |sorted| != n { return Err(Invalid); }
      for i := 0 to n
        invariant forall k :: 0 <= k < i ==> sorted[k].number == k + 1
      {
        if sorted[i].number != i + 1 { return Err(Invalid); }
      }
      if Total(parts) != declared { return Err(Invalid); }
      ObjectSize(parts);
      r := Ok(ObjectOf(parts));
    }
  }

  /** The parts are numbered 1 to `n`. */
  ghost predicate Covered(parts: seq<Part>, n: nat) {
    && |parts| == n
    && forall number :: 1 <= number <= n ==> HasPart(parts, number)
  }

  ghost predicate HasPart(parts: seq<Part>, number: nat) {
    exists p :: p in parts && p.number == number
  }

  lemma {:induction false} Ascending(sorted: seq<Part>, k: nat)
    requires Sorted(sorted, ByNumber) && DistinctNumbers(sorted) && k < |sorted|
    requires forall i :: 0 <= i < |sorted| ==> 1 <= sorted[i].number <= |sorted|
    ensures sorted[k].number >= k + 1
  {
    if k > 0 {
      Ascending(sorted, k - 1);
      assert ByNumber(sorted[k - 1], sorted[k]);
    }
  }

  lemma {:induction false} Descending(sorted: seq<Part>, k: nat)
    requires Sorted(sorted, ByNumber) && DistinctNumbers(sorted) && k < |sorted|
    requires forall i :: 0 <= i < |sorted| ==> 1 <= sorted[i].number <= |sorted|
    ensures sorted[k].number <= k + 1
    decreases |sorted| - k
  {
    if k < |sorted| - 1 {
      Descending(sorted, k + 1);
      assert ByNumber(sorted[k], sorted[k + 1]);
    }
  }

  /** As many parts as there are numbers means one part for each number, in order. */
  lemma PartsCovered(parts: seq<Part>, n: nat)
    requires DistinctNumbers(parts) && forall p :: p in parts ==> 1 <= p.number <= n
    ensures |InOrder(parts)| == |parts|
    ensures Covered(parts, n) <==> |parts| == n
    ensures |parts| == n ==> forall k :: 0 <= k < n ==> InOrder(parts)[k].number == k + 1
  {
    var sorted := InOrder(parts);
    SortSorts(parts, ByNumber);
    if |parts| == n {
      NumbersSurviveSorting(parts, sorted);
      forall i | 0 <= i < |sorted| ensures 1 <= sorted[i].number <= |sorted| {
        assert sorted[i] in parts;
      }
      forall k | 0 <= k < n ensures sorted[k].number == k + 1 {
        Ascending(sorted, k);
        Descending(sorted, k);
      }
      forall number | 1 <= number <= n ensures HasPart(parts, number) {
        assert sorted[number - 1] in parts && sorted[number - 1].number == number;
      }
    }
  }

  lemma NumbersSurviveSorting(parts: seq<Part>, sorted: seq<Part>)
    requires DistinctNumbers(parts) && multiset(parts) == multiset(sorted)
    ensures DistinctNumbers(sorted)
  {
    DistinctPermuted(parts, sorted);
    forall i, j | 0 <= i < j < |sorted| ensures sorted[i].number != sorted[j].number {
      PermutationsShareElements(parts, sorted, sorted[i]);
      PermutationsShareElements(parts, sorted, sorted[j]);
      var x :| 0 <= x < |parts| && parts[x] == sorted[i];
      var y :| 0 <= y < |parts| && parts[y] == sorted[j];
      assert x != y;
    }
  }

  lemma {:induction false} TotalAppend(a: seq<Part>, b: seq<Part>)
    ensures Total(a + b) == Total(a) + Total(b)
  {
    if a == [] {
      assert a + b == b;
    } else {
      assert (a + b)[1..] == a[1..] + b;
      TotalAppend(a[1..], b);
    }
  }

  lemma {:induction false} TotalInserted(s: seq<Part>, p: Part)
    ensures Total(Insert(s, p, ByNumber)) == Total(s) + |p.content|
  {
    if s == [] || ByNumber(s[|s| - 1], p) {
      TotalAppend(s, [p]);
    } else {
      var init, last := s[..|s| - 1], s[|s| - 1];
      TotalInserted(init, p);
      TotalAppend(Insert(init, p, ByNumber), [last]);
      TotalAppend(init, [last]);
      assert s == init + [last];
    }
  }

  lemma {:induction false} TotalSorted(s: seq<Part>)
    ensures Total(InOrder(s)) == Total(s)
  {
    if s != [] {
      var init, last := s[..|s| - 1], s[|s| - 1];
      TotalSorted(init);
      TotalInserted(InOrder(init), last);
      TotalAppend(init, [last]);
      assert s == init + [last];
    }
  }

  lemma {:induction false} FlattenedTotal(s: seq<Part>)
    ensures |Flatten(Contents(s))| == Total(s)
  {
    if s != [] {
      FlattenedTotal(s[1..]);
      FlattenCons(s[0].content, Contents(s[1..]));
      assert Contents(s) == [s[0].content] + Contents(s[1..]);
    }
  }

  lemma ObjectSize(parts: seq<Part>)
    ensures |ObjectOf(parts)| == Total(parts)
  {
    TotalSorted(parts);
    FlattenedTotal(InOrder(parts));
  }

  /** Parts that were each checked against their expected size complete the upload as soon as all of them are there. */
  lemma ExpectedPartsComplete(parts: seq<Part>, declared: nat, chunk: nat)
    requires chunk > 0 && DistinctNumbers(parts) && |parts| == PartCount(declared, chunk)
    requires forall p :: p in parts ==> ExpectedPart(declared, chunk, p.number, |p.content|)
    ensures Covered(parts, |parts|) && Total(parts) == declared
  {
    var sorted := InOrder(parts);
    PartsCovered(parts, |parts|);
    SortSorts(parts, ByNumber);
    var sizes := Sizes(sorted);
    forall k | 0 <= k < |sizes| ensures ExpectedPart(declared, chunk, k + 1, sizes[k]) {
      assert sorted[k] in parts;
    }
    ExpectedSizesCover(declared, chunk, sizes);
    SizesTotal(sorted);
    TotalSorted(parts);
  }

  function Sizes(parts: seq<Part>): seq<nat> {
    seq(|parts|, k requires 0 <= k < |parts| => |parts[k].content|)
  }

  lemma {:induction false} SizesTotal(parts: seq<Part>)
    ensures Sum(Sizes(parts)) == Total(parts)
  {
    if parts != [] {
      SizesTotal(parts[1..]);
      assert Sizes(parts)[1..] == Sizes(parts[1..]);
    }
  }

  // ---- the importer ----

  /** `m` full chunks and more bytes need a part after the `m` full ones. */
  lemma {:induction false} OneMorePart(declared: nat, chunk: nat, m: nat, r: nat)
    requires chunk > 0 && r >= 1 && chunk * m + r <= declared
    ensures m + 1 <= PartCount(declared, chunk)
  {
    PartCountStep(declared, chunk);
    if m > 0 {
      assert chunk * m == chunk * (m - 1) + chunk;
      Multiples(chunk, m);
      OneMorePart(declared - chunk, chunk, m - 1, r);
    }
  }

  /** A full chunk inside the declared size is what the store expects; a shorter tail is if it ends the declared size. */
  lemma {:induction false} ExpectedExactly(declared: nat, chunk: nat, m: nat, r: nat)
    requires 0 < r <= chunk && chunk * m + r <= declared
    ensures ExpectedPart(declared, chunk, m + 1, r) <==> r == chunk || chunk * m + r == declared
  {
    PartCountStep(declared, chunk);
    if m > 0 {
      assert chunk * m == chunk * (m - 1) + chunk;
      Multiples(chunk, m);
      ExpectedExactly(declared - chunk, chunk, m - 1, r);
      ExpectedSizeStep(declared, chunk, m);
    } else if declared > chunk {
      ExpectedSizeStep(declared, chunk, 1);
      OneMorePart(declared - chunk, chunk, 0, 1);
    }
  }

  lemma AppendPart(full: seq<Bytes>, content: Bytes)
    ensures Upsert(Numbered(full), Part(|full| + 1, content)) == Numbered(full + [content])
    ensures SumOthers(Numbered(full), |full| + 1) == Total(Numbered(full)) == |Flatten(full)|
  {
    UpsertNew(Numbered(full), Part(|full| + 1, content));
    OthersAreAll(Numbered(full), |full| + 1);
    FlattenedTotal(Numbered(full));
    assert Contents(Numbered(full)) == full;
    assert Numbered(full) + [Part(|full| + 1, content)] == Numbered(full + [content]);
  }

  lemma {:induction false} UpsertNew(parts: seq<Part>, p: Part)
    requires forall i :: 0 <= i < |parts| ==> parts[i].number != p.number
    ensures Upsert(parts, p) == parts + [p]
  {
    if parts != [] { UpsertNew(parts[1..], p); }
  }

  lemma FlattenSnoc(parts: seq<Bytes>, last: Bytes)
    ensures Flatten(parts + [last]) == Flatten(parts) + last
  {
    assert (parts + [last])[..|parts|] == parts;
  }

  ghost predicate AllFull(full: seq<Bytes>, chunk: nat) {
    forall k :: 0 <= k < |full| ==> |full[k]| == chunk
  }

  lemma {:induction false} FullSize(full: seq<Bytes>, chunk: nat)
    requires AllFull(full, chunk)
    ensures |Flatten(full)| == chunk * |full|
  {
    if full != [] {
      FullSize(full[..|full| - 1], chunk);
      assert chunk * |full| == chunk * (|full| - 1) + chunk;
    }
  }

  /** What has been written is full parts 1, 2, ...; the rest of what was read is pending. */
  ghost predicate Rechunked(upload: Upload, full: seq<Bytes>, pending: Bytes, read: Bytes)
    reads upload
  {
    && upload.Valid() && upload.parts == Numbered(full) && AllFull(full, upload.chunk)
    && Flatten(full) + pending == read
  }

  /** Writes one more part; the store takes it as long as no more was read than declared. */
  method WriteNext(upload: Upload, partNumber: nat, part: Bytes, ghost full: seq<Bytes>)
    requires upload.Valid() && upload.parts == Numbered(full) && AllFull(full, upload.chunk) && partNumber == |full| + 1
    requires 0 < |part| <= upload.chunk && |Flatten(full)| + |part| <= upload.declared
    modifies upload
    ensures upload.Valid() && upload.parts == Numbered(full + [part])
  {
    FullSize(full, upload.chunk);
    OneMorePart(upload.declared, upload.chunk, |full|, |part|);
    AppendPart(full, part);
    var r := upload.WritePart(partNumber, part);
  }

  /** Writes full parts as long as enough is pending. */
  method WriteFullParts(upload: Upload, pending: Bytes, partNumber: nat, ghost full: seq<Bytes>, ghost read: Bytes)
    returns (rest: Bytes, next: nat, ghost more: seq<Bytes>)
    requires Rechunked(upload, full, pending, read) && |read| <= upload.declared && partNumber == |full| + 1
    modifies upload
    ensures Rechunked(upload, more, rest, read) && |rest| < upload.chunk && next == |more| + 1
  {
    rest, next, more := pending, partNumber, full;
    while |rest| >= upload.chunk
      invariant Rechunked(upload, more, rest, read) && next == |more| + 1
    {
      var part := rest[..upload.chunk];
      WriteNext(upload, next, part, more);
      FlattenSnoc(more, part);
      more, rest, next := more + [part], rest[upload.chunk..], next + 1;
    }
  }

  /**
   However the body is split into reads: a body of the declared size becomes its chunks, numbered from one, and the
   completed object is the body; a longer one is refused as over quota and a shorter one as incomplete.
   */
  method PersistBody(pieces: seq<Bytes>, max: nat, upload: Upload) returns (r: Result<Bytes, StoreError>)
    requires upload.Valid() && upload.parts == []
    modifies upload
    ensures var body := Flatten(pieces);
            && (|body| > upload.declared || |body| > max ==> r == Err(Quota))
            && (|body| <= max && |body| < upload.declared ==> r == Err(Invalid))
            && (|body| == upload.declared <= max ==> r == Ok(body) && upload.parts == Numbered(Chunks(body, upload.chunk)))
  {
    var partNumber, total, pending := 1, 0, [];
    ghost var full := [];
    for i := 0 to |pieces|
      invariant Rechunked(upload, full, pending, Flatten(pieces[..i]))
      invariant total == |Flatten(pieces[..i])| && total <= upload.declared && total <= max
      invariant partNumber == |full| + 1 && |pending| < upload.chunk
    {
      assert pieces[..i + 1][..i] == pieces[..i];
      if |pieces[i]| == 0 { continue; }
      total := total + |pieces[i]|;
      if total > upload.declared || total > max {
        PiecesGrow(pieces, i + 1);
        return Err(Quota);
      }
      pending := pending + pieces[i];
      pending, partNumber, full := WriteFullParts(upload, pending, partNumber, full, Flatten(pieces[..i + 1]));
    }
    assert pieces[..|pieces|] == pieces;
    FullPartsAreChunks(full, pending, upload.chunk);
    if |pending| > 0 {
      WriteNext(upload, partNumber, pending, full);
    } else {
      assert full + [] == full;
    }
    if total != upload.declared { return Err(Invalid); }
    ChunksComplete(Flatten(pieces), upload.chunk);
    r := upload.CompleteUpload();
  }

  lemma {:induction false} PiecesGrow(pieces: seq<Bytes>, i: nat)
    requires i <= |pieces|
    ensures |Flatten(pieces[..i])| <= |Flatten(pieces)|
    decreases |pieces| - i
  {
    if i < |pieces| {
      assert pieces[..i + 1][..i] == pieces[..i];
      PiecesGrow(pieces, i + 1);
    } else {
      assert pieces[..i] == pieces;
    }
  }

  /** The numbered chunks of a body complete an upload of its size, and the object is the body. */
  lemma ChunksComplete(body: Bytes, chunk: nat)
    requires chunk > 0
    ensures var parts := Numbered(Chunks(body, chunk));
            Covered(parts, PartCount(|body|, chunk)) && Total(parts) == |body| && ObjectOf(parts) == body
  {
    var chunks := Chunks(body, chunk);
    var parts := Numbered(chunks);
    ChunksAreExpected(body, chunk);
    assert Contents(parts) == chunks;
    FlattenedTotal(parts);
    PartsCovered(parts, |chunks|);
    SortSorts(parts, ByNumber);
    SortedUnchanged(parts);
  }

  lemma {:induction false} SortedUnchanged(parts: seq<Part>)
    requires forall i, j :: 0 <= i < j < |parts| ==> ByNumber(parts[i], parts[j])
    ensures InOrder(parts) == parts
  {
    if parts != [] {
      SortedUnchanged(parts[..|parts| - 1]);
      assert parts == parts[..|parts| - 1] + [parts[|parts| - 1]];
    }
  }
}
