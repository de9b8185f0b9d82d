/**
 Uploads staged part by part, and stored objects read range by range.

 A part that never arrived is skipped in silence, a part with a negative number is never looked
 at, and a range whose end overflows 64 bits makes the slice expression panic.
 */
module Media {
  import opened Prelude

  type Bytes = seq<bv8>

  // --- one upload --------------------------------------------------------------------

  datatype Upload = Upload(parts: map<int, Bytes>, max: int)

  const NO_PARTS := Upload(map[], 0)

  function PutPart(u: Upload, part: int, data: Bytes): Upload {
    Upload(u.parts[part := data], if part > u.max then part else u.max)
  }

  function PartOf(parts: map<int, Bytes>, i: int): Bytes {
    if i in parts then parts[i] else []
  }

  /** Parts 0..n-1 in order; missing ones contribute nothing. */
  function Joined(parts: map<int, Bytes>, n: int): Bytes
    decreases if n < 0 then 0 else n
  {
    if n <= 0 then [] else Joined(parts, n - 1) + PartOf(parts, n - 1)
  }

  function Assembled(u: Upload): Bytes {
    Joined(u.parts, u.max + 1)
  }

  /** The largest part number is remembered. */
  ghost predicate Tracked(u: Upload) {
    u.max >= 0 && forall i | i in u.parts :: i <= u.max
  }

  class StagedFile {
    var parts: map<int, Bytes>
    var max: int

    ghost function Contents(): Upload
      reads this
    {
      Upload(parts, max)
    }

    constructor ()
      ensures Contents() == NO_PARTS
    {
      parts, max := map[], 0;
    }

    method Put(part: int, data: Bytes)
      modifies this
      ensures Contents() == PutPart(old(Contents()), part, data)
      ensures old(Tracked(Contents())) ==> Tracked(Contents())
    {
      parts := parts[part := data];
      if part > max {
        max := part;
      }
    }

    method Assemble() returns (out: Bytes)
      ensures out == Assembled(Contents())
    {
      out := [];
      var i := 0;
      while i <= max
        invariant 0 <= i && (i <= max + 1 || i == 0)
        invariant out == Joined(parts, i)
      {
        out := out + PartOf(parts, i);
        i := i + 1;
      }
    }
  }

  // --- what an upload assembles to ---------------------------------------------------------

  function PutAll(puts: seq<(int, Bytes)>): Upload {
    if puts == [] then NO_PARTS
    else PutPart(PutAll(puts[..|puts| - 1]), puts[|puts| - 1].0, puts[|puts| - 1].1)
  }

  lemma {:induction false} JoinedPadding(parts: map<int, Bytes>, m: int, n: int)
    requires 0 <= m <= n && forall i | i in parts :: i < m
    ensures Joined(parts, n) == Joined(parts, m)
  {
    if m < n {
      JoinedPadding(parts, m, n - 1);
    }
  }

  lemma {:induction false} JoinedSame(a: map<int, Bytes>, b: map<int, Bytes>, n: int)
    requires forall i | 0 <= i < n :: PartOf(a, i) == PartOf(b, i)
    ensures Joined(a, n) == Joined(b, n)
    decreases if n < 0 then 0 else n
  {
    if n > 0 {
      JoinedSame(a, b, n - 1);
    }
  }

  lemma {:induction false} PutAllTracked(puts: seq<(int, Bytes)>)
    ensures Tracked(PutAll(puts))
    ensures forall i :: i in PutAll(puts).parts <==> exists k :: 0 <= k < |puts| && puts[k].0 == i
  {
    if puts != [] {
      var n := |puts| - 1;
      PutAllTracked(puts[..n]);
      forall i ensures i in PutAll(puts).parts <==> exists k :: 0 <= k < |puts| && puts[k].0 == i {
        if i in PutAll(puts[..n]).parts {
          var k :| 0 <= k < n && puts[..n][k].0 == i;
          assert puts[k].0 == i;
        }
        if k :| 0 <= k < |puts| && puts[k].0 == i && k < n {
          assert puts[..n][k].0 == i;
        }
      }
    }
  }

  /** What was put last under a number; nothing if it never was. */
  function LastWrite(puts: seq<(int, Bytes)>, i: int): Bytes {
    if puts == [] then []
    else if puts[|puts| - 1].0 == i then puts[|puts| - 1].1
    else LastWrite(puts[..|puts| - 1], i)
  }

  /** A part put again replaces what was put before. */
  lemma {:induction false} PartIsLastWrite(puts: seq<(int, Bytes)>, i: int)
    ensures PartOf(PutAll(puts).parts, i) == LastWrite(puts, i)
  {
    if puts != [] {
      PartIsLastWrite(puts[..|puts| - 1], i);
    }
  }

  /** The last writes of parts 0..n-1 in order. */
  function LastWrites(puts: seq<(int, Bytes)>, n: nat): Bytes {
    if n == 0 then [] else LastWrites(puts, n - 1) + LastWrite(puts, n - 1)
  }

  lemma {:induction false} JoinedLastWrites(puts: seq<(int, Bytes)>, n: nat)
    ensures Joined(PutAll(puts).parts, n) == LastWrites(puts, n)
  {
    if n > 0 {
      JoinedLastWrites(puts, n - 1);
      PartIsLastWrite(puts, n - 1);
    }
  }

  /** An upload assembles to the last writes of its parts, in the order of their numbers. */
  lemma AssemblesLastWrites(puts: seq<(int, Bytes)>, n: nat)
    requires n > 0 && forall k | 0 <= k < |puts| :: puts[k].0 < n
    ensures Assembled(PutAll(puts)) == LastWrites(puts, n)
  {
    MaxBelow(puts, n);
    AssembledPadded(puts, n);
    JoinedLastWrites(puts, n);
  }

  lemma {:induction false} MaxBelow(puts: seq<(int, Bytes)>, n: nat)
    requires n > 0 && forall k | 0 <= k < |puts| :: puts[k].0 < n
    ensures PutAll(puts).max < n
  {
    if puts != [] {
      MaxBelow(puts[..|puts| - 1], n);
    }
  }

  /** Only the last write of each part counts: order and repetitions do not matter otherwise. */
  lemma LastWritesDecide(a: seq<(int, Bytes)>, b: seq<(int, Bytes)>)
    requires forall i | i >= 0 :: LastWrite(a, i) == LastWrite(b, i)
    ensures Assembled(PutAll(a)) == Assembled(PutAll(b))
  {
    var u, v := PutAll(a), PutAll(b);
    var n := (if u.max > v.max then u.max else v.max) + 1;
    AssembledPadded(a, n);
    AssembledPadded(b, n);
    forall i | 0 <= i < n ensures PartOf(u.parts, i) == PartOf(v.parts, i) {
      PartIsLastWrite(a, i);
      PartIsLastWrite(b, i);
    }
    JoinedSame(u.parts, v.parts, n);
  }

  lemma AssembledPadded(puts: seq<(int, Bytes)>, n: int)
    requires n > PutAll(puts).max
    ensures Assembled(PutAll(puts)) == Joined(PutAll(puts).parts, n)
  {
    PutAllTracked(puts);
    JoinedPadding(PutAll(puts).parts, PutAll(puts).max + 1, n);
  }

  function Concat(pieces: seq<Bytes>): Bytes {
    if pieces == [] then [] else Concat(pieces[..|pieces| - 1]) + pieces[|pieces| - 1]
  }

  /** Every put carries one of the pieces under its own number. */
  ghost predicate Uploads(pieces: seq<Bytes>, puts: seq<(int, Bytes)>) {
    forall k | 0 <= k < |puts| :: 0 <= puts[k].0 < |pieces| && puts[k].1 == pieces[puts[k].0]
  }

  ghost predicate PutSome(puts: seq<(int, Bytes)>, i: int) {
    exists k :: 0 <= k < |puts| && puts[k].0 == i
  }

  lemma {:induction false} PartsArePieces(pieces: seq<Bytes>, puts: seq<(int, Bytes)>)
    requires Uploads(pieces, puts)
    ensures forall i | i in PutAll(puts).parts :: 0 <= i < |pieces| && PutAll(puts).parts[i] == pieces[i]
    ensures PutAll(puts).max == 0 || PutAll(puts).max < |pieces|
  {
    if puts != [] {
      PartsArePieces(pieces, puts[..|puts| - 1]);
    }
  }

  /** Joining some of the pieces gives at most as many bytes, and all of them when no piece is missing. */
  lemma {:induction false} JoinedPieces(pieces: seq<Bytes>, parts: map<int, Bytes>, n: nat)
    requires n <= |pieces|
    requires forall i | i in parts :: 0 <= i < |pieces| && parts[i] == pieces[i]
    requires forall i | 0 <= i < |pieces| :: pieces[i] != []
    ensures |Joined(parts, n)| <= |Concat(pieces[..n])|
    ensures |Joined(parts, n)| == |Concat(pieces[..n])| ==> forall i | 0 <= i < n :: i in parts
    ensures (forall i | 0 <= i < n :: i in parts) ==> Joined(parts, n) == Concat(pieces[..n])
  {
    if n > 0 {
      JoinedPieces(pieces, parts, n - 1);
      assert pieces[..n][..n - 1] == pieces[..n - 1];
    }
  }

  /**
   A blob cut into non-empty pieces and uploaded in any order, with any repetitions, assembles to the
   blob exactly when every piece has been put.
   */
  lemma AssemblesIffComplete(pieces: seq<Bytes>, puts: seq<(int, Bytes)>)
    requires pieces != [] && (forall i | 0 <= i < |pieces| :: pieces[i] != []) && Uploads(pieces, puts)
    ensures Assembled(PutAll(puts)) == Concat(pieces) <==> forall i | 0 <= i < |pieces| :: PutSome(puts, i)
  {
    PartsArePieces(pieces, puts);
    AssembledPadded(puts, |pieces|);
    CompleteIff(pieces, PutAll(puts).parts);
    PutsAreParts(puts);
  }

  lemma PutsAreParts(puts: seq<(int, Bytes)>)
    ensures forall i :: i in PutAll(puts).parts <==> PutSome(puts, i)
  {
    PutAllTracked(puts);
  }

  lemma CompleteIff(pieces: seq<Bytes>, parts: map<int, Bytes>)
    requires forall i | i in parts :: 0 <= i < |pieces| && parts[i] == pieces[i]
    requires forall i | 0 <= i < |pieces| :: pieces[i] != []
    ensures Joined(parts, |pieces|) == Concat(pieces) <==> forall i | 0 <= i < |pieces| :: i in parts
  {
    JoinedPieces(pieces, parts, |pieces|);
    assert pieces[..|pieces|] == pieces;
  }

  // --- the staging area ------------------------------------------------------------------

  datatype StagingKey = StagingKey(userId: int, fileId: int)

  const MAX_PART_SIZE := 524288

  class UploadStaging {
    var files: map<StagingKey, StagedFile>

    /** Different uploads never share a file object. */
    ghost predicate Valid()
      reads this
    {
      forall k, l | k in files && l in files && k != l :: files[k] != files[l]
    }

    /** What has been staged, per key. */
    ghost function Staged(): map<StagingKey, Upload>
      reads this, files.Values
    {
      map k | k in files :: files[k].Contents()
    }

    constructor ()
      ensures Valid() && Staged() == map[]
    {
      files := map[];
    }

    method File(key: StagingKey) returns (f: StagedFile)
      requires Valid()
      modifies this
      ensures Valid() && key in files && files[key] == f
      ensures files.Values <= old(files.Values) + {f} && (fresh(f) || f in old(files.Values))
      ensures Staged() == if key in old(files) then old(Staged()) else old(Staged())[key := NO_PARTS]
      ensures f in old(files.Values) ==> f.Contents() == old(f.Contents())
    {
      if key in files {
        f := files[key];
      } else {
        f := new StagedFile();
        files := files[key := f];
      }
    }

    method Take(key: StagingKey) returns (f: StagedFile?)
      requires Valid()
      modifies this
      ensures Valid() && (f != null <==> key in old(files))
      ensures f != null ==> f == old(files)[key] && f.Contents() == old(Staged())[key]
      ensures f != null ==> f !in files.Values
      ensures files == old(files) - {key} && Staged() == old(Staged()) - {key}
    {
      if key in files {
        f := files[key];
        files := files - {key};
      } else {
        f := null;
      }
    }

    /** Staging one part: rejected when empty or too large, otherwise put into the caller's own file. */
    method SaveFilePart(key: StagingKey, part: int, data: Bytes) returns (ok: bool)
      requires Valid()
      modifies this, files.Values
      ensures Valid() && files.Values <= old(files.Values) + set f | f in files.Values && fresh(f)
      ensures ok <==> 0 < |data| <= 512 * 1024
      ensures var before := if key in old(Staged()) then old(Staged())[key] else NO_PARTS;
              Staged() == if ok then old(Staged())[key := PutPart(before, part, data)] else old(Staged())
    {
      if |data| == 0 || |data| > MAX_PART_SIZE {
        return false;
      }
      var f := File(key);
      f.Put(part, data);
      return true;
    }
  }

  // --- stored objects ---------------------------------------------------------------------

  const MIN_INT64 := -0x8000_0000_0000_0000
  const MAX_INT64 := 0x7FFF_FFFF_FFFF_FFFF

  type Int64 = x: int | MIN_INT64 <= x <= MAX_INT64

  /** 64-bit addition. */
  function Add64(x: Int64, y: Int64): (z: Int64) {
    if x + y > MAX_INT64 then x + y - 0x1_0000_0000_0000_0000
    else if x + y < MIN_INT64 then x + y + 0x1_0000_0000_0000_0000
    else x + y
  }

  datatype RangeResult = Window(data: Bytes) | NotFound | OffsetOutOfRange | Panics

  function Min(x: int, y: int): int {
    if x < y then x else y
  }

  /** The bytes a range stands for: up to `length` of them from `offset` on, all when `length` is negative. */
  function RangeOf(data: Bytes, offset: int, length: int): Bytes
    requires 0 <= offset <= |data|
  {
    if length < 0 then data[offset..] else data[offset..Min(offset + length, |data|)]
  }

  class ObjectStore {
    var objs: map<string, Bytes>

    constructor ()
      ensures objs == map[]
    {
      objs := map[];
    }

    method Put(key: string, data: Bytes)
      modifies this
      ensures objs == old(objs)[key := data]
    {
      objs := objs[key := data];
    }

    method Get(key: string) returns (data: Option<Bytes>)
      ensures data == if key in objs then Some(objs[key]) else None
    {
      if key !in objs {
        return None;
      }
      return Some(objs[key]);
    }

    /** A range is cut at the object's end; its slice expression panics exactly when the end overflows. */
    method GetRange(key: string, offset: Int64, length: Int64) returns (r: RangeResult)
      requires key in objs ==> |objs[key]| <= MAX_INT64
      ensures r == NotFound <==> key !in objs
      ensures r == OffsetOutOfRange <==> key in objs && !(0 <= offset <= |objs[key]|)
      ensures r == Panics <==> key in objs && 0 <= offset <= |objs[key]| && offset + length > MAX_INT64
      ensures r.Window? ==> r.data == RangeOf(objs[key], offset, length)
      ensures r.Window? && length < 0 ==> r.data == objs[key][offset..]
      ensures r.Window? && length >= 0 ==>
                && |r.data| == Min(length, |objs[key]| - offset)
                && r.data == objs[key][offset..offset + |r.data|]
    {
      if key !in objs {
        return NotFound;
      }
      var data := objs[key];
      if offset < 0 || offset > |data| {
        return OffsetOutOfRange;
      }
      var end := Add64(offset, length);
      if length < 0 || end > |data| {
        end := |data|;
      }
      if end < offset {
        return Panics;
      }
      return Window(data[offset..end]);
    }
  }

  /** A one-byte object read from offset 1 with the greatest length: the slice expression panics. */
  method RangeCanPanic() returns (r: RangeResult)
    ensures r == Panics
  {
    var store := new ObjectStore();
    store.Put("k", [0]);
    r := store.GetRange("k", 1, MAX_INT64);
  }

  // --- downloading ---------------------------------------------------------------------------

  /**
   What a client collects that asks for `limit` bytes at a time from `offset` on and stops at the
   first short window; None when a request would overflow.
   */
  function Download(data: Bytes, offset: int, limit: int): Option<Bytes>
    requires 0 <= offset <= |data| && limit >= 1
    decreases |data| - offset
  {
    if offset + limit > MAX_INT64 then None
    else
      var w := RangeOf(data, offset, limit);
      if |w| < limit then Some(w)
      else
        match Download(data, offset + limit, limit)
        case None => None
        case Some(rest) => Some(w + rest)
  }

  /** The download stops, and the windows add up to what lies behind the offset. */
  lemma {:induction false} DownloadIsComplete(data: Bytes, offset: int, limit: int)
    requires 0 <= offset <= |data| && limit >= 1
    ensures Download(data, offset, limit).Some? ==> Download(data, offset, limit).value == data[offset..]
    ensures |data| + limit <= MAX_INT64 ==> Download(data, offset, limit).Some?
    decreases |data| - offset
  {
    if offset + limit <= |data| && offset + limit <= MAX_INT64 {
      DownloadIsComplete(data, offset + limit, limit);
      assert data[offset..] == data[offset..offset + limit] + data[offset + limit..];
    }
  }

  /**
   The whole way: a blob cut into non-empty pieces, uploaded in any order with any repetitions, comes
   back unchanged when read with any limit of 31 bits.
   */
  lemma UploadThenDownload(pieces: seq<Bytes>, puts: seq<(int, Bytes)>, limit: int)
    requires pieces != [] && (forall i | 0 <= i < |pieces| :: pieces[i] != []) && Uploads(pieces, puts)
    requires forall i | 0 <= i < |pieces| :: PutSome(puts, i)
    requires 1 <= limit < 0x8000_0000 && |Concat(pieces)| <= MAX_INT64 - 0x7FFF_FFFF
    ensures Download(Assembled(PutAll(puts)), 0, limit) == Some(Concat(pieces))
  {
    AssemblesIffComplete(pieces, puts);
    DownloadIsComplete(Concat(pieces), 0, limit);
  }

  // --- the handlers together -----------------------------------------------------------------

  datatype File = File(ownerId: int, objectKey: string, size: int, accessHash: int)

  datatype FileReply = FileBytes(data: Bytes) | FileIdInvalid | RangeFailed(reason: RangeResult)

  class MediaServer {
    const staging: UploadStaging
    const store: ObjectStore
    /** The object key of a content; distinct contents have distinct keys. */
    const keyOf: Bytes -> string
    var files: map<int, File>
    var fileSeq: int

    /** Every recorded file's object is stored, under the key of its own content. */
    ghost predicate Valid()
      reads this, store
    {
      && fileSeq >= 0
      && (forall id | id in files :: 1 <= id <= fileSeq)
      && (forall k | k in store.objs :: keyOf(store.objs[k]) == k)
      && (forall id | id in files ::
            files[id].objectKey in store.objs && files[id].size == |store.objs[files[id].objectKey]|)
    }

    ghost function ContentOf(id: int): Bytes
      requires Valid() && id in files
      reads this, store
    {
      store.objs[files[id].objectKey]
    }

    constructor (keyOf: Bytes -> string)
      ensures Valid() && staging.Valid() && files == map[] && fresh(staging) && fresh(store)
      ensures staging.Staged() == map[] && this.keyOf == keyOf
    {
      staging := new UploadStaging();
      store := new ObjectStore();
      this.keyOf := keyOf;
      files, fileSeq := map[], 0;
    }

    /** Take the staged upload, store its content, record the file; None when nothing was staged. */
    method SendMedia(owner: int, uploadId: int, accessHash: int) returns (id: Option<int>)
      requires Valid() && staging.Valid()
      requires forall a, b | keyOf(a) == keyOf(b) :: a == b
      modifies this, staging, store
      ensures Valid() && staging.Valid()
      ensures id.Some? <==> StagingKey(owner, uploadId) in old(staging.Staged())
      ensures staging.Staged() == old(staging.Staged()) - {StagingKey(owner, uploadId)}
      ensures id.None? ==> files == old(files)
      ensures id.Some? ==>
                && id.value !in old(files) && files.Keys == old(files.Keys) + {id.value}
                && files[id.value].ownerId == owner && files[id.value].accessHash == accessHash
                && ContentOf(id.value) == Assembled(old(staging.Staged())[StagingKey(owner, uploadId)])
      ensures forall f | f in old(files) :: files[f] == old(files[f]) && ContentOf(f) == old(ContentOf(f))
    {
      var staged := staging.Take(StagingKey(owner, uploadId));
      if staged == null {
        return None;
      }
      var data := staged.Assemble();
      var recorded := Record(owner, data, accessHash);
      id := Some(recorded);
    }

    /** Store a content and record the file; the objects of files recorded before keep their content. */
    method Record(owner: int, data: Bytes, accessHash: int) returns (id: int)
      requires Valid()
      requires forall a, b | keyOf(a) == keyOf(b) :: a == b
      modifies this, store
      ensures Valid() && id !in old(files) && files == old(files)[id := File(owner, keyOf(data), |data|, accessHash)]
      ensures ContentOf(id) == data
      ensures forall f | f in old(files) :: ContentOf(f) == old(ContentOf(f))
    {
      var objectKey := keyOf(data);
      assert objectKey in store.objs ==> store.objs[objectKey] == data;
      store.Put(objectKey, data);
      fileSeq := fileSeq + 1;
      id := fileSeq;
      files := files[id := File(owner, objectKey, |data|, accessHash)];
    }

    method GetFile(id: int, accessHash: int, offset: Int64, limit: Int64) returns (r: FileReply)
      requires Valid() && (id in files ==> files[id].size <= MAX_INT64)
      ensures r == FileIdInvalid <==> !(id in files && files[id].accessHash == accessHash)
      ensures r.FileBytes? ==> 0 <= offset <= |ContentOf(id)| && r.data == RangeOf(ContentOf(id), offset, limit)
      ensures
        && id in files && files[id].accessHash == accessHash
        && 0 <= offset <= files[id].size && offset + limit <= MAX_INT64
        ==> r.FileBytes?
    {
      if id !in files || files[id].accessHash != accessHash {
        return FileIdInvalid;
      }
      var w := store.GetRange(files[id].objectKey, offset, limit);
      if w.Window? {
        return FileBytes(w.data);
      }
      return RangeFailed(w);
    }
  }

  // --- a client's calls -----------------------------------------------------------------------

  /** Stage every part, one call of the handler each. */
  method StageAll(staging: UploadStaging, key: StagingKey, puts: seq<(int, Bytes)>)
    requires staging.Valid() && key !in staging.files
    requires forall k | 0 <= k < |puts| :: 0 < |puts[k].1| <= MAX_PART_SIZE
    modifies staging, staging.files.Values
    ensures staging.Valid() && (puts != [] ==> key in staging.Staged() && staging.Staged()[key] == PutAll(puts))
  {
    for n := 0 to |puts|
      invariant staging.Valid()
      invariant forall f | f in staging.files.Values :: f in old(staging.files.Values) || fresh(f)
      invariant n > 0 ==> key in staging.files
      invariant (if key in staging.Staged() then staging.Staged()[key] else NO_PARTS) == PutAll(puts[..n])
    {
      assert puts[..n + 1][..n] == puts[..n];
      var ok := staging.SaveFilePart(key, puts[n].0, puts[n].1);
      assert ok && key in staging.Staged();
    }
    assert puts[..|puts|] == puts;
  }

  /** Read a file window by window until the first short one. */
  method DownloadAll(server: MediaServer, id: int, accessHash: int, limit: Int64) returns (out: Bytes)
    requires server.Valid() && id in server.files && server.files[id].accessHash == accessHash
    requires limit >= 1 && |server.ContentOf(id)| + limit <= MAX_INT64
    ensures out == server.ContentOf(id)
  {
    ghost var content := server.ContentOf(id);
    out := [];
    var offset, more := 0, true;
    while more
      invariant 0 <= offset <= |content| && (more ==> out == content[..offset]) && (!more ==> out == content)
      decreases |content| - offset, more
    {
      var r := server.GetFile(id, accessHash, offset, limit);
      assert r.data == RangeOf(content, offset, limit);
      assert content[..offset] + r.data == content[..Min(offset + limit, |content|)];
      out := out + r.data;
      more := |r.data| == limit;
      offset := offset + |r.data|;
    }
  }

  /**
   The whole way through the handlers: upload the parts in any order with any repetitions, send the
   media, and read it back with any limit of 31 bits.
   */
  method Transfer(server: MediaServer, owner: int, uploadId: int, pieces: seq<Bytes>, puts: seq<(int, Bytes)>,
                  accessHash: int, limit: Int64)
    returns (out: Bytes)
    requires server.Valid() && server.staging.Valid() && StagingKey(owner, uploadId) !in server.staging.files
    requires forall a, b | server.keyOf(a) == server.keyOf(b) :: a == b
    requires pieces != [] && forall i | 0 <= i < |pieces| :: 0 < |pieces[i]| <= MAX_PART_SIZE
    requires Uploads(pieces, puts) && forall i | 0 <= i < |pieces| :: PutSome(puts, i)
    requires 1 <= limit < 0x8000_0000 && |Concat(pieces)| <= MAX_INT64 - 0x7FFF_FFFF
    modifies server, server.store, server.staging, server.staging.files.Values
    ensures out == Concat(pieces)
  {
    AssemblesIffComplete(pieces, puts);
    assert PutSome(puts, 0);
    StageAll(server.staging, StagingKey(owner, uploadId), puts);
    var id := server.SendMedia(owner, uploadId, accessHash);
    out := DownloadAll(server, id.value, accessHash, limit);
  }
}
