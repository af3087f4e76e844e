/** Cutting a stream into numbered parts
    (crates/depot-store/src/s3.rs, crates/depot-client/src/client.rs). */
module Multipart {
  import opened Wrappers
  import opened Bytes
  import opened Arithmetic

  const CHUNK_SIZE: nat := 64 * 1024
  const MIN_PART_SIZE: nat := 5 * 1024 * 1024
  const MAX_PARTS: nat := 10_000

  function Min(a: nat, b: nat): (m: nat) {
    if a < b then a else b
  }

  /** A byte stream that may return fewer bytes than asked for, and none only at its end. */
  class Reader {
    var remaining: seq<Byte>
    /** The sizes the next reads would like to return. */
    var schedule: seq<nat>

    constructor (data: seq<Byte>, schedule: seq<nat>)
      ensures remaining == data && this.schedule == schedule
    {
      remaining, this.schedule := data, schedule;
    }

    method Read(size: nat) returns (chunk: seq<Byte>)
      modifies this
      ensures chunk + remaining == old(remaining) && |chunk| <= size
      ensures chunk == [] <==> size == 0 || old(remaining) == []
    {
      var available := Min(size, |remaining|);
      var wanted := available;
      if schedule != [] {
        wanted := Min(schedule[0], available);
        schedule := schedule[1..];
      }
      if wanted == 0 {
        wanted := Min(1, available);
      }
      chunk := remaining[..wanted];
      remaining := remaining[wanted..];
    }
  }

  /** The stream cut after every `size` bytes. */
  function Parts(data: seq<Byte>, size: nat): (r: seq<seq<Byte>>)
    requires size > 0
  {
    if data == [] then [] else [data[..Min(size, |data|)]] + Parts(data[Min(size, |data|)..], size)
  }

  function Concat(parts: seq<seq<Byte>>): (data: seq<Byte>) {
    if parts == [] then [] else parts[0] + Concat(parts[1..])
  }

  lemma {:induction false} PartsJoin(data: seq<Byte>, size: nat)
    requires size > 0
    ensures Concat(Parts(data, size)) == data
  {
    if data != [] { PartsJoin(data[Min(size, |data|)..], size); }
  }

  /** Every part is full except possibly the last, which is not empty. */
  lemma {:induction false} PartSizes(data: seq<Byte>, size: nat, i: nat)
    requires size > 0 && i < |Parts(data, size)|
    ensures i < |Parts(data, size)| - 1 ==> |Parts(data, size)[i]| == size
    ensures 0 < |Parts(data, size)[i]| <= size
  {
    if i > 0 { PartSizes(data[Min(size, |data|)..], size, i - 1); }
  }

  lemma OneMoreQuotient(n: nat, size: nat)
    requires size > 0
    ensures (n + size) / size == n / size + 1
  {
    DivUnique(n + size, size, n / size + 1, n % size);
  }

  /** The number of parts is the length divided by the part size, rounded up. */
  lemma {:induction false} PartCount(data: seq<Byte>, size: nat)
    requires size > 0
    ensures |Parts(data, size)| == (|data| + size - 1) / size
  {
    if data == [] {
      DivUnique(size - 1, size, 0, size - 1);
    } else if |data| <= size {
      assert data[|data|..] == [];
      DivUnique(|data| + size - 1, size, 1, |data| - 1);
    } else {
      PartCount(data[size..], size);
      OneMoreQuotient(|data| - 1, size);
      assert |data[size..]| + size - 1 == |data| - 1;
    }
  }

  /** `read_next_part` and `read_next_upload_part`: reads until the part is full or the stream ends. */
  method ReadNextPart(reader: Reader, size: nat) returns (part: Option<seq<Byte>>)
    modifies reader
    ensures part.None? <==> size == 0 || old(reader.remaining) == []
    ensures part.None? ==> reader.remaining == old(reader.remaining)
    ensures part.Some? ==>
              var n := Min(size, |old(reader.remaining)|);
              part.value == old(reader.remaining)[..n] && reader.remaining == old(reader.remaining)[n..]
  {
    var buffer: seq<Byte> := [];
    ghost var data := reader.remaining;
    while |buffer| < size
      invariant buffer + reader.remaining == data && |buffer| <= size
      decreases size - |buffer|
    {
      var wanted := Min(size - |buffer|, CHUNK_SIZE);
      ghost var before := reader.remaining;
      var chunk := reader.Read(wanted);
      if |chunk| == 0 {
        assert reader.remaining == [];
        break;
      }
      assert buffer + chunk + reader.remaining == buffer + before;
      buffer := buffer + chunk;
    }
    assert buffer == data[..|buffer|] && reader.remaining == data[|buffer|..];
    if buffer == [] {
      return None;
    }
    return Some(buffer);
  }

  datatype CompletedPart = CompletedPart(number: int, etag: string)

  /** The object a backend makes from the listed parts. */
  function Assemble(parts: map<int, seq<Byte>>, completed: seq<CompletedPart>): (data: seq<Byte>) {
    if completed == [] then []
    else (if completed[0].number in parts then parts[completed[0].number] else []) + Assemble(parts, completed[1..])
  }

  /**
   One multipart upload at a backend: the parts it holds, and in the end the object, or nothing after an
   abort. Entity tags, and which part uploads and whether the completion is refused, are the backend's choice.
   */
  class PartStore {
    var parts: map<int, seq<Byte>>
    var assembled: Option<seq<Byte>>
    var aborted: bool
    const etag: (int, seq<Byte>) -> string
    const refused: set<int>
    const completes: bool

    constructor (etag: (int, seq<Byte>) -> string, refused: set<int>, completes: bool)
      ensures Untouched() && this.etag == etag && this.refused == refused && this.completes == completes
    {
      parts, assembled, aborted := map[], None, false;
      this.etag, this.refused, this.completes := etag, refused, completes;
    }

    predicate Untouched()
      reads this
    {
      parts == map[] && assembled.None? && !aborted
    }

    method Put(number: int, bytes: seq<Byte>) returns (tag: Option<string>)
      modifies this`parts
      ensures number in refused ==> tag.None? && parts == old(parts)
      ensures number !in refused ==> tag == Some(etag(number, bytes)) && parts == old(parts)[number := bytes]
    {
      if number in refused {
        return None;
      }
      parts := parts[number := bytes];
      tag := Some(etag(number, bytes));
    }

    method Complete(completed: seq<CompletedPart>) returns (ok: bool)
      modifies this`assembled
      ensures ok == completes
      ensures assembled == if ok then Some(Assemble(parts, completed)) else old(assembled)
    {
      if completes {
        assembled := Some(Assemble(parts, completed));
      }
      ok := completes;
    }

    method Abort()
      modifies this
      ensures aborted && parts == map[] && assembled == old(assembled)
    {
      aborted, parts := true, map[];
    }
  }

  predicate HoldsPart(parts: map<int, seq<Byte>>, etag: (int, seq<Byte>) -> string,
                      completed: CompletedPart, number: int, piece: seq<Byte>) {
    number in parts && parts[number] == piece && completed == CompletedPart(number, etag(number, piece))
  }

  /** Part n, counted from 1, holds piece n - 1 of the cut stream. */
  predicate Uploaded(parts: map<int, seq<Byte>>, etag: (int, seq<Byte>) -> string,
                     completed: seq<CompletedPart>, pieces: seq<seq<Byte>>) {
    && |completed| == |pieces|
    && forall i :: 0 <= i < |pieces| ==> HoldsPart(parts, etag, completed[i], i + 1, pieces[i])
  }

  lemma UploadOneMore(parts: map<int, seq<Byte>>, etag: (int, seq<Byte>) -> string,
                      completed: seq<CompletedPart>, pieces: seq<seq<Byte>>, piece: seq<Byte>)
    requires Uploaded(parts, etag, completed, pieces)
    ensures var n := |pieces| + 1;
            Uploaded(parts[n := piece], etag, completed + [CompletedPart(n, etag(n, piece))], pieces + [piece])
  {
    var n := |pieces| + 1;
    var parts', completed', pieces' := parts[n := piece], completed + [CompletedPart(n, etag(n, piece))], pieces + [piece];
    forall i | 0 <= i < |pieces'| ensures HoldsPart(parts', etag, completed'[i], i + 1, pieces'[i]) {
      if i < |pieces| { assert HoldsPart(parts, etag, completed[i], i + 1, pieces[i]); }
    }
  }

  lemma {:induction false} AssembleFrom(parts: map<int, seq<Byte>>, etag: (int, seq<Byte>) -> string,
                                        completed: seq<CompletedPart>, pieces: seq<seq<Byte>>, k: nat)
    requires Uploaded(parts, etag, completed, pieces) && k <= |pieces|
    ensures Assemble(parts, completed[k..]) == Concat(pieces[k..])
    decreases |pieces| - k
  {
    if k < |pieces| {
      AssembleFrom(parts, etag, completed, pieces, k + 1);
      assert completed[k..][1..] == completed[k + 1..] && pieces[k..][1..] == pieces[k + 1..];
    }
  }

  /** What the backend assembles from the uploaded parts is the stream, and its length is the one reported. */
  lemma AssembledObject(parts: map<int, seq<Byte>>, etag: (int, seq<Byte>) -> string,
                        completed: seq<CompletedPart>, data: seq<Byte>, size: nat)
    requires size > 0 && Uploaded(parts, etag, completed, Parts(data, size))
    ensures Assemble(parts, completed) == data
  {
    var pieces := Parts(data, size);
    AssembleFrom(parts, etag, completed, pieces, 0);
    assert completed[0..] == completed && pieces[0..] == pieces;
    PartsJoin(data, size);
  }

  lemma {:induction false} PartsSoFar(data: seq<Byte>, size: nat, done: seq<seq<Byte>>, rest: seq<Byte>)
    requires size > 0 && rest != [] && Parts(data, size) == done + Parts(rest, size)
    ensures var n := Min(size, |rest|);
            Parts(data, size) == (done + [rest[..n]]) + Parts(rest[n..], size)
  {}

  datatype UploadError =
    | PartSizeTooSmall
    | InvalidPartNumber(number: int)
    | PartRefused(number: int)
    | EmptyStream
    | TooManyParts
    | CompletionRefused

  /** `validate_part_number`. */
  predicate ValidPartNumber(number: int) {
    1 <= number <= MAX_PARTS
  }

  /** The first of the parts 1 to k that is refused. */
  function FirstRefused(refused: set<int>, k: nat): (number: Option<int>)
    ensures number.None? ==> forall i :: 1 <= i <= k ==> i !in refused
    ensures number.Some? ==>
              1 <= number.value <= k && number.value in refused && forall i :: 1 <= i < number.value ==> i !in refused
  {
    if k == 0 then None
    else
      var earlier := FirstRefused(refused, k - 1);
      if earlier.Some? then earlier else if k in refused then Some(k) else None
  }

  /** What the server's loop makes of a stream that has k parts: its length, or the first thing that goes wrong. */
  function ServerOutcome(k: nat, length: nat, refused: set<int>, completes: bool): (r: Result<nat, UploadError>) {
    match FirstRefused(refused, Min(k, MAX_PARTS))
    case Some(number) => Err(PartRefused(number))
    case None =>
      if k > MAX_PARTS then Err(InvalidPartNumber(MAX_PARTS + 1))
      else if k == 0 then Err(EmptyStream)
      else if !completes then Err(CompletionRefused)
      else Ok(length)
  }

  /** The same for the client's loop, which gives up when all part numbers are used. */
  function ClientOutcome(k: nat, length: nat, refused: set<int>, completes: bool): (r: Result<nat, UploadError>) {
    match FirstRefused(refused, Min(k, MAX_PARTS))
    case Some(number) => Err(PartRefused(number))
    case None =>
      if k >= MAX_PARTS then Err(TooManyParts)
      else if k == 0 then Err(EmptyStream)
      else if !completes then Err(CompletionRefused)
      else Ok(length)
  }

  /** Some part that is numbered within the limit is refused, and this is the first. */
  predicate IsFirstRefused(refused: set<int>, k: nat, number: int) {
    1 <= number <= k && number <= 10_000 && number in refused && forall i :: 1 <= i < number ==> i !in refused
  }

  lemma FirstRefusedExactly(refused: set<int>, k: nat, number: int)
    ensures FirstRefused(refused, Min(k, MAX_PARTS)) == Some(number) <==> IsFirstRefused(refused, k, number)
  {
    if IsFirstRefused(refused, k, number) { RefusedAt(refused, number, Min(k, MAX_PARTS)); }
  }

  /**
   The answers to an upload of k parts. The first refused part is the error. If none is refused, the server takes up to
   10000 parts and calls the next one invalid; the client takes up to 9999.
   */
  lemma OutcomesExactly(k: nat, length: nat, refused: set<int>, completes: bool, number: int)
    ensures IsFirstRefused(refused, k, number) ==>
              && ServerOutcome(k, length, refused, completes) == Err(PartRefused(number))
              && ClientOutcome(k, length, refused, completes) == Err(PartRefused(number))
    ensures (forall i :: 1 <= i <= k && i <= 10_000 ==> i !in refused) ==>
              && ServerOutcome(k, length, refused, completes)
                 == (if k == 0 then Err(EmptyStream) else if k > 10_000 then Err(InvalidPartNumber(10_001))
                     else if completes then Ok(length) else Err(CompletionRefused))
              && ClientOutcome(k, length, refused, completes)
                 == (if k == 0 then Err(EmptyStream) else if k > 9_999 then Err(TooManyParts)
                     else if completes then Ok(length) else Err(CompletionRefused))
  {
    FirstRefusedExactly(refused, k, number);
    if r: int :| FirstRefused(refused, Min(k, MAX_PARTS)) == Some(r) { FirstRefusedExactly(refused, k, r); }
  }

  /** An upload that succeeds leaves the stream as the object; one that fails leaves nothing. */
  predicate Settled(store: PartStore, ok: bool, data: seq<Byte>)
    reads store
  {
    if ok then store.assembled == Some(data) && !store.aborted
    else store.assembled.None? && store.aborted && store.parts == map[]
  }

  lemma RefusedAt(refused: set<int>, number: int, k: nat)
    requires 1 <= number <= k && number in refused && forall i :: 1 <= i < number ==> i !in refused
    ensures FirstRefused(refused, k) == Some(number)
  {}

  /** The server's loop: reads a part, then checks its number. */
  method SendParts(reader: Reader, store: PartStore, partSize: nat) returns (r: Result<nat, UploadError>)
    requires store.Untouched() && partSize > 0
    modifies reader, store`parts, store`assembled
    ensures r == ServerOutcome(|Parts(old(reader.remaining), partSize)|, |old(reader.remaining)|, store.refused, store.completes)
    ensures store.assembled == if r.Ok? then Some(old(reader.remaining)) else None
  {
    var partNumber := 1;
    var totalContentLength := 0;
    var completedParts: seq<CompletedPart> := [];
    ghost var data := reader.remaining;
    ghost var done: seq<seq<Byte>> := [];
    while true
      invariant partNumber == |done| + 1 && |done| <= MAX_PARTS
      invariant Parts(data, partSize) == done + Parts(reader.remaining, partSize)
      invariant Uploaded(store.parts, store.etag, completedParts, done)
      invariant forall i :: 1 <= i <= |done| ==> i !in store.refused
      invariant totalContentLength + |reader.remaining| == |data|
      invariant store.assembled.None?
      decreases |reader.remaining|
    {
      ghost var rest := reader.remaining;
      var part := ReadNextPart(reader, partSize);
      if part.None? {
        break;
      }
      PartsSoFar(data, partSize, done, rest);
      if !ValidPartNumber(partNumber) {
        return Err(InvalidPartNumber(partNumber));
      }
      totalContentLength := totalContentLength + |part.value|;
      UploadOneMore(store.parts, store.etag, completedParts, done, part.value);
      var etag := store.Put(partNumber, part.value);
      if etag.None? {
        RefusedAt(store.refused, partNumber, Min(|Parts(data, partSize)|, MAX_PARTS));
        return Err(PartRefused(partNumber));
      }
      completedParts := completedParts + [CompletedPart(partNumber, etag.value)];
      done := done + [part.value];
      partNumber := partNumber + 1;
    }
    assert done + [] == done;
    if |completedParts| == 0 {
      return Err(EmptyStream);
    }
    var completed := store.Complete(completedParts);
    if !completed {
      return Err(CompletionRefused);
    }
    AssembledObject(store.parts, store.etag, completedParts, data, partSize);
    return Ok(totalContentLength);
  }

  /** `put_stream_multipart`: a part size that is too small fails before the part of the code that aborts on failure. */
  method PutStreamMultipart(reader: Reader, store: PartStore, partSize: nat) returns (r: Result<nat, UploadError>)
    requires store.Untouched()
    modifies reader, store
    ensures partSize < 5_242_880 ==> r == Err(PartSizeTooSmall) && store.Untouched()
    ensures partSize >= 5_242_880 ==>
              var data := old(reader.remaining);
              && r == ServerOutcome(|Parts(data, partSize)|, |data|, store.refused, store.completes)
              && Settled(store, r.Ok?, data)
  {
    if partSize < MIN_PART_SIZE {
      return Err(PartSizeTooSmall);
    }
    r := SendParts(reader, store, partSize);
    if r.Err? {
      store.Abort();
    }
  }

  /** `upload_s3_multipart_reader_inner`: the client's loop checks the number, then reads a part. */
  method SendPresignedParts(reader: Reader, store: PartStore, partSize: nat) returns (r: Result<nat, UploadError>)
    requires store.Untouched()
    modifies reader, store`parts, store`assembled
    ensures partSize == 0 ==> r == Err(EmptyStream)
    ensures partSize > 0 ==>
              r == ClientOutcome(|Parts(old(reader.remaining), partSize)|, |old(reader.remaining)|, store.refused, store.completes)
    ensures store.assembled == if r.Ok? then Some(old(reader.remaining)) else None
  {
    var partNumber := 1;
    var totalContentLength := 0;
    var completedParts: seq<CompletedPart> := [];
    ghost var data := reader.remaining;
    ghost var done: seq<seq<Byte>> := [];
    while true
      invariant partNumber == |done| + 1 && |done| <= MAX_PARTS
      invariant partSize > 0 ==> Parts(data, partSize) == done + Parts(reader.remaining, partSize)
      invariant partSize == 0 ==> done == []
      invariant Uploaded(store.parts, store.etag, completedParts, done)
      invariant forall i :: 1 <= i <= |done| ==> i !in store.refused
      invariant totalContentLength + |reader.remaining| == |data|
      invariant store.assembled.None?
      decreases |reader.remaining|
    {
      if partNumber > MAX_PARTS {
        return Err(TooManyParts);
      }
      ghost var rest := reader.remaining;
      var part := ReadNextPart(reader, partSize);
      if part.None? {
        break;
      }
      PartsSoFar(data, partSize, done, rest);
      UploadOneMore(store.parts, store.etag, completedParts, done, part.value);
      var etag := store.Put(partNumber, part.value);
      if etag.None? {
        RefusedAt(store.refused, partNumber, Min(|Parts(data, partSize)|, MAX_PARTS));
        return Err(PartRefused(partNumber));
      }
      totalContentLength := totalContentLength + |part.value|;
      completedParts := completedParts + [CompletedPart(partNumber, etag.value)];
      done := done + [part.value];
      partNumber := partNumber + 1;
    }
    assert done + [] == done;
    if |completedParts| == 0 {
      return Err(EmptyStream);
    }
    var completed := store.Complete(completedParts);
    if !completed {
      return Err(CompletionRefused);
    }
    AssembledObject(store.parts, store.etag, completedParts, data, partSize);
    return Ok(totalContentLength);
  }

  /** `upload_s3_multipart_reader`: the client aborts after every failure; on success this is the length it reports. */
  method UploadMultipart(reader: Reader, store: PartStore, partSize: nat) returns (r: Result<nat, UploadError>)
    requires store.Untouched()
    modifies reader, store
    ensures partSize == 0 ==> r == Err(EmptyStream)
    ensures partSize > 0 ==>
              r == ClientOutcome(|Parts(old(reader.remaining), partSize)|, |old(reader.remaining)|, store.refused, store.completes)
    ensures Settled(store, r.Ok?, old(reader.remaining))
  {
    r := SendPresignedParts(reader, store, partSize);
    if r.Err? {
      store.Abort();
    }
  }

  // ---- Comparing the loops ----

  /** With a backend that refuses nothing. */
  predicate ServerAccepts(data: seq<Byte>, partSize: nat) {
    partSize >= MIN_PART_SIZE && ServerOutcome(|Parts(data, partSize)|, |data|, {}, true).Ok?
  }

  predicate ClientAccepts(data: seq<Byte>, partSize: nat) {
    partSize > 0 && ClientOutcome(|Parts(data, partSize)|, |data|, {}, true).Ok?
  }

  lemma Product(a: nat, b: nat, size: nat)
    requires a <= b
    ensures a * size <= b * size
  {}

  lemma CountBounds(len: nat, size: nat, k: nat)
    requires size > 0 && k == (len + size - 1) / size
    ensures len <= k * size && (k > 0 ==> (k - 1) * size < len)
  {
    var n := len + size - 1;
    assert n == k * size + n % size;
    assert k > 0 ==> (k - 1) * size == k * size - size;
  }

  lemma CountIs(len: nat, size: nat, k: nat, max: nat)
    requires size > 0 && max > 0 && k == (len + size - 1) / size
    ensures k == max <==> (max - 1) * size < len <= max * size
  {
    CountBounds(len, size, k);
    if k < max { Product(k, max - 1, size); }
    if k > max { Product(max, k - 1, size); }
  }

  lemma CountIsBelow(len: nat, size: nat, k: nat, max: nat)
    requires size > 0 && max > 0 && k == (len + size - 1) / size
    ensures k < max <==> len <= (max - 1) * size
    ensures k > 0 <==> len > 0
  {
    CountBounds(len, size, k);
    if k < max { Product(k, max - 1, size); } else { Product(max, k, size); }
  }

  /**
   With a backend that refuses nothing, the loops disagree exactly on streams of exactly 10000 parts when the
   server allows the part size, and on every stream that the client's loop accepts when it does not.
   */
  lemma LoopsDisagree(data: seq<Byte>, partSize: nat)
    ensures ServerAccepts(data, partSize) != ClientAccepts(data, partSize) <==>
              if partSize >= 5_242_880 then 9_999 * partSize < |data| <= 10_000 * partSize
              else 0 < |data| <= 9_999 * partSize
  {
    if partSize > 0 {
      PartCount(data, partSize);
      CountIs(|data|, partSize, |Parts(data, partSize)|, MAX_PARTS);
      CountIsBelow(|data|, partSize, |Parts(data, partSize)|, MAX_PARTS);
    }
  }
}
