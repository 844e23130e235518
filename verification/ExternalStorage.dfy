/** Fused spilling: many objects are written into one file, each with a header of three
    lengths, and restored one by one from keys that hold an offset and a size. */
module ExternalStorage {
  import opened Sums
  import opened SpillUrls

  type byte = x: int | 0 <= x < 256
  type bytes = seq<byte>

  const HEADER_LENGTH: nat := 24
  const LENGTH_BYTES: nat := 8
  const LENGTH_LIMIT: nat := 0x1_0000_0000_0000_0000

  /** An object in the store; one whose owner has failed has no buffer. */
  datatype Object = Object(owner: bytes, metadata: bytes, buffer: Buffer)
  datatype Buffer = Missing | Present(data: bytes)

  /** What is put back into the store; size is the length the header gives for the data. */
  datatype Restored = Restored(owner: bytes, metadata: bytes, size: nat, data: bytes)

  // --------------------------------------------------------------------- the codec

  function Power(k: nat): nat { if k == 0 then 1 else 256 * Power(k - 1) }

  /** n in k bytes, least significant first. */
  function LittleEndian(n: nat, k: nat): (b: bytes)
    ensures |b| == k
  {
    if k == 0 then [] else [n % 256] + LittleEndian(n / 256, k - 1)
  }

  function FromBytes(b: bytes): nat {
    if b == [] then 0 else b[0] + 256 * FromBytes(b[1..])
  }

  lemma {:induction false} LittleEndianRoundTrip(n: nat, k: nat)
    requires n < Power(k)
    ensures FromBytes(LittleEndian(n, k)) == n
  {
    if k > 0 {
      LittleEndianRoundTrip(n / 256, k - 1);
      assert LittleEndian(n, k)[1..] == LittleEndian(n / 256, k - 1);
    }
  }

  lemma PowerOfEight()
    ensures Power(LENGTH_BYTES) == LENGTH_LIMIT
  {
    assert Power(4) == 0x1_0000_0000;
    assert Power(8) == 256 * (256 * (256 * (256 * Power(4))));
  }

  function Length(n: nat): bytes { LittleEndian(n, LENGTH_BYTES) }

  lemma LengthRoundTrip(n: nat)
    requires n < LENGTH_LIMIT
    ensures FromBytes(Length(n)) == n
  {
    PowerOfEight();
    LittleEndianRoundTrip(n, LENGTH_BYTES);
  }

  /** The digit of n with weight 256 to the power of i. */
  function Digit(n: nat, i: nat): byte {
    if i == 0 then n % 256 else Digit(n / 256, i - 1)
  }

  lemma {:induction false} LittleEndianDigits(n: nat, k: nat, i: nat)
    requires i < k
    ensures LittleEndian(n, k)[i] == Digit(n, i)
  {
    if i > 0 {
      LittleEndianDigits(n / 256, k - 1, i - 1);
    }
  }

  // --------------------------------------------------------------------- frames

  predicate Writable(o: Object) {
    && o.buffer.Present?
    && |o.owner| < LENGTH_LIMIT && |o.metadata| < LENGTH_LIMIT && |o.buffer.data| < LENGTH_LIMIT
  }

  function Payload(o: Object): (p: bytes)
    requires o.buffer.Present?
    ensures |p| == HEADER_LENGTH + |o.owner| + |o.metadata| + |o.buffer.data|
  {
    Length(|o.owner|) + Length(|o.metadata|) + Length(|o.buffer.data|) + o.owner + o.metadata + o.buffer.data
  }

  /** The layout of a frame: eight bytes each for the lengths of owner, metadata and data, the
      least significant first, then the three in this order. */
  lemma PayloadLayout(o: Object)
    requires o.buffer.Present?
    ensures var p, a, m := Payload(o), |o.owner|, |o.metadata|;
      && (forall i :: 0 <= i < 8 ==> p[i] == Digit(a, i))
      && (forall i :: 0 <= i < 8 ==> p[8 + i] == Digit(m, i))
      && (forall i :: 0 <= i < 8 ==> p[16 + i] == Digit(|o.buffer.data|, i))
      && p[24..24 + a] == o.owner && p[24 + a..24 + a + m] == o.metadata && p[24 + a + m..] == o.buffer.data
  {
    hide LittleEndian, Digit;
    var p, a, m := Payload(o), |o.owner|, |o.metadata|;
    forall i | 0 <= i < 8
      ensures p[i] == Digit(a, i) && p[8 + i] == Digit(m, i) && p[16 + i] == Digit(|o.buffer.data|, i)
    {
      LittleEndianDigits(a, LENGTH_BYTES, i);
      LittleEndianDigits(m, LENGTH_BYTES, i);
      LittleEndianDigits(|o.buffer.data|, LENGTH_BYTES, i);
    }
  }

  predicate AllWritable(objects: seq<Object>) {
    forall i :: 0 <= i < |objects| ==> Writable(objects[i])
  }

  /** The frames of some objects, one after the other. */
  function Frames(objects: seq<Object>): bytes
    requires AllWritable(objects)
  {
    if objects == [] then [] else Frames(objects[..|objects| - 1]) + Payload(objects[|objects| - 1])
  }

  /** The offset of the i-th frame. */
  function Offset(objects: seq<Object>, i: nat): nat
    requires AllWritable(objects) && i <= |objects|
  {
    |Frames(objects[..i])|
  }

  lemma FramesLast(objects: seq<Object>)
    requires AllWritable(objects) && objects != []
    ensures var n := |objects| - 1; Frames(objects) == Frames(objects[..n]) + Payload(objects[n])
  {
  }

  lemma SliceOfPrefix(a: bytes, b: bytes, low: nat, high: nat)
    requires low <= high <= |a|
    ensures (a + b)[low..high] == a[low..high]
  {
  }

  lemma SliceOfEnd(a: bytes, b: bytes)
    ensures (a + b)[|a|..|a| + |b|] == b
  {
  }

  lemma NoFrames(objects: seq<Object>)
    requires AllWritable(objects)
    ensures Offset(objects, 0) == 0 && Offset(objects, |objects|) == |Frames(objects)|
  {
    assert objects[..|objects|] == objects;
  }

  /** The frames tile the file: each begins where the one before ends, and holds its payload. */
  lemma {:induction false} FramesTile(objects: seq<Object>, i: nat)
    requires AllWritable(objects) && i < |objects|
    ensures Offset(objects, i + 1) == Offset(objects, i) + |Payload(objects[i])| <= |Frames(objects)|
    ensures Offset(objects, 0) == 0 && Offset(objects, |objects|) == |Frames(objects)|
    ensures Frames(objects)[Offset(objects, i)..Offset(objects, i + 1)] == Payload(objects[i])
  {
    hide Frames, Payload;
    var n := |objects| - 1;
    var before := objects[..n];
    NoFrames(objects);
    FramesLast(objects);
    if i < n {
      FramesTile(before, i);
      assert before[..i] == objects[..i] && before[..i + 1] == objects[..i + 1];
      SliceOfPrefix(Frames(before), Payload(objects[n]), Offset(objects, i), Offset(objects, i + 1));
    } else {
      SliceOfEnd(Frames(before), Payload(objects[n]));
    }
  }

  function KeyOf(objects: seq<Object>, i: nat, url: string): string
    requires AllWritable(objects) && i < |objects|
  {
    CreateUrl(url, Offset(objects, i), |Payload(objects[i])|)
  }

  /** Object b is the first that cannot be written; the frames before it are in the file. */
  predicate Stops(objects: seq<Object>, b: nat, file: bytes, error: Error)
    requires b < |objects|
  {
    && !Writable(objects[b]) && AllWritable(objects[..b]) && file == Frames(objects[..b])
    && (objects[b].buffer.Missing? ==> error == MissingObject)
    && (objects[b].buffer.Present? ==> error == Overflow)
  }

  /** Writes objects into a file until one cannot be written. */
  method WriteMultipleObjects(objects: seq<Object>, url: string) returns (file: bytes, keys: Result<seq<string>>)
    ensures keys.Ok? <==> AllWritable(objects)
    ensures keys.Ok? ==> file == Frames(objects) && |keys.value| == |objects|
    ensures keys.Ok? ==> forall i :: 0 <= i < |objects| ==> keys.value[i] == KeyOf(objects, i, url)
    ensures keys.Err? ==> exists b :: 0 <= b < |objects| && Stops(objects, b, file, keys.error)
  {
    hide CreateUrl, LittleEndian;
    file := [];
    var written: seq<string> := [];
    var offset := 0;
    for i := 0 to |objects|
      invariant AllWritable(objects[..i])
      invariant file == Frames(objects[..i]) && offset == |file|
      invariant written == KeysOf(objects[..i], url)
    {
      var o := objects[i];
      if o.buffer.Missing? {
        assert Stops(objects, i, file, MissingObject);
        return file, Err(MissingObject);
      }
      var addressLength, metadataLength, bufferLength := |o.owner|, |o.metadata|, |o.buffer.data|;
      if addressLength >= LENGTH_LIMIT || metadataLength >= LENGTH_LIMIT || bufferLength >= LENGTH_LIMIT {
        assert Stops(objects, i, file, Overflow);
        return file, Err(Overflow);
      }
      var payload := Length(addressLength) + Length(metadataLength) + Length(bufferLength) + o.owner + o.metadata + o.buffer.data;
      assert HEADER_LENGTH + addressLength + metadataLength + bufferLength == |payload|;
      assert objects[..i + 1][..i] == objects[..i];
      file := file + payload;
      var writtenBytes := |payload|;
      written := written + [CreateUrl(url, offset, writtenBytes)];
      offset := |file|;
    }
    assert objects[..|objects|] == objects;
    keys := Ok(written);
    KeysAre(objects, url);
  }

  /** The keys of all objects, in the order of writing. */
  function KeysOf(objects: seq<Object>, url: string): seq<string>
    requires AllWritable(objects)
  {
    if objects == [] then []
    else
      var before := objects[..|objects| - 1];
      KeysOf(before, url) + [CreateUrl(url, |Frames(before)|, |Payload(objects[|objects| - 1])|)]
  }

  lemma {:induction false} KeysAre(objects: seq<Object>, url: string)
    requires AllWritable(objects)
    ensures |KeysOf(objects, url)| == |objects|
    ensures forall i :: 0 <= i < |objects| ==> KeysOf(objects, url)[i] == KeyOf(objects, i, url)
  {
    hide CreateUrl, Payload, Frames;
    if objects != [] {
      var before := objects[..|objects| - 1];
      KeysAre(before, url);
      forall i | 0 <= i < |before|
        ensures KeyOf(before, i, url) == KeyOf(objects, i, url)
      {
        assert before[..i] == objects[..i];
      }
    }
  }

  // ------------------------------------------------------------------- restoring

  /** What reading n bytes from a position yields; at the end of a file there may be fewer. */
  function Read(file: bytes, position: nat, n: nat): bytes {
    if position >= |file| then []
    else if position + n <= |file| then file[position..position + n]
    else file[position..]
  }

  /** Reading yields the bytes from the position on, as many as asked for or as there are. */
  lemma ReadIsExact(file: bytes, position: nat, n: nat)
    ensures |Read(file, position, n)| == if position + n <= |file| then n else if position <= |file| then |file| - position else 0
    ensures forall i :: 0 <= i < |Read(file, position, n)| ==> Read(file, position, n)[i] == file[position + i]
  {
  }

  /** One object read at an offset, with the size the key promises. */
  function RestoreAt(file: bytes, offset: nat, size: nat): Result<Restored> {
    var addressLength := FromBytes(Read(file, offset, 8));
    var metadataLength := FromBytes(Read(file, offset + 8, 8));
    var bufferLength := FromBytes(Read(file, offset + 16, 8));
    if addressLength + metadataLength + bufferLength + HEADER_LENGTH != size then Err(SizeMismatch)
    else
      var start := offset + HEADER_LENGTH;
      Ok(Restored(Read(file, start, addressLength),
                  Read(file, start + addressLength, metadataLength),
                  bufferLength,
                  Read(file, start + addressLength + metadataLength, bufferLength)))
  }

  function RestoreKey(files: map<string, bytes>, key: string): Result<Restored> {
    var parsed := ParseUrl(key);
    if parsed.Err? then Err(BadUrl)
    else if parsed.value.baseUrl !in files then Err(NoFile)
    else RestoreAt(files[parsed.value.baseUrl], parsed.value.offset, parsed.value.size)
  }

  /** What restoring an object should give. */
  function Original(o: Object): Restored
    requires o.buffer.Present?
  {
    Restored(o.owner, o.metadata, |o.buffer.data|, o.buffer.data)
  }

  lemma SliceOfSlice(s: bytes, p: nat, q: nat, a: nat, b: nat)
    requires p <= q <= |s| && a <= b <= q - p
    ensures s[p..q][a..b] == s[p + a..p + b]
  {
    var x, y := s[p..q][a..b], s[p + a..p + b];
    forall i | 0 <= i < b - a
      ensures x[i] == y[i]
    {
    }
  }

  lemma ReadPart(file: bytes, position: nat, before: bytes, part: bytes, after: bytes)
    requires position + |before| + |part| + |after| <= |file|
    requires file[position..position + |before| + |part| + |after|] == before + part + after
    ensures Read(file, position + |before|, |part|) == part
  {
    var whole := before + part + after;
    assert part == whole[|before|..|before| + |part|];
    assert |whole| == |before| + |part| + |after|;
    SliceOfSlice(file, position, position + |before| + |part| + |after|, |before|, |before| + |part|);
    var start := position + |before|;
    assert file[start..start + |part|] == part;
    if start >= |file| {
      assert part == [];
    }
  }

  /** A frame is read back as the object it was made from, whatever surrounds it. */
  lemma FrameRoundTrip(file: bytes, offset: nat, o: Object)
    requires Writable(o) && FrameAt(file, offset, o)
    ensures RestoreAt(file, offset, |Payload(o)|) == Ok(Original(o))
  {
    hide LittleEndian, FromBytes, Read, LENGTH_LIMIT, Writable;
    HeaderIsRead(file, offset, o);
    BodyIsRead(file, offset, o);
    LengthsRoundTrip(o);
  }

  lemma LengthsRoundTrip(o: Object)
    requires Writable(o)
    ensures FromBytes(Length(|o.owner|)) == |o.owner|
    ensures FromBytes(Length(|o.metadata|)) == |o.metadata|
    ensures FromBytes(Length(|o.buffer.data|)) == |o.buffer.data|
  {
    LengthRoundTrip(|o.owner|);
    LengthRoundTrip(|o.metadata|);
    LengthRoundTrip(|o.buffer.data|);
  }

  predicate FrameAt(file: bytes, offset: nat, o: Object) {
    && o.buffer.Present? && offset + |Payload(o)| <= |file|
    && file[offset..offset + |Payload(o)|] == Payload(o)
  }

  lemma HeaderIsRead(file: bytes, offset: nat, o: Object)
    requires FrameAt(file, offset, o)
    ensures Read(file, offset, 8) == Length(|o.owner|)
    ensures Read(file, offset + 8, 8) == Length(|o.metadata|)
    ensures Read(file, offset + 16, 8) == Length(|o.buffer.data|)
  {
    hide LittleEndian, Read;
    var a, m, b := Length(|o.owner|), Length(|o.metadata|), Length(|o.buffer.data|);
    var rest := o.owner + o.metadata + o.buffer.data;
    var p := Payload(o);
    assert p == [] + a + (m + b + rest);
    ReadPart(file, offset, [], a, m + b + rest);
    assert p == a + m + (b + rest);
    ReadPart(file, offset, a, m, b + rest);
    assert p == (a + m) + b + rest;
    ReadPart(file, offset, a + m, b, rest);
  }

  lemma BodyIsRead(file: bytes, offset: nat, o: Object)
    requires FrameAt(file, offset, o)
    ensures var start := offset + HEADER_LENGTH;
      && Read(file, start, |o.owner|) == o.owner
      && Read(file, start + |o.owner|, |o.metadata|) == o.metadata
      && Read(file, start + |o.owner| + |o.metadata|, |o.buffer.data|) == o.buffer.data
  {
    hide LittleEndian, Read;
    var header := Length(|o.owner|) + Length(|o.metadata|) + Length(|o.buffer.data|);
    var p := Payload(o);
    assert p == header + o.owner + (o.metadata + o.buffer.data);
    ReadPart(file, offset, header, o.owner, o.metadata + o.buffer.data);
    assert p == (header + o.owner) + o.metadata + o.buffer.data;
    ReadPart(file, offset, header + o.owner, o.metadata, o.buffer.data);
    assert p == (header + o.owner + o.metadata) + o.buffer.data + [];
    ReadPart(file, offset, header + o.owner + o.metadata, o.buffer.data, []);
  }

  /** Of a frame only its true size is accepted. */
  lemma WrongSizeIsRefused(file: bytes, offset: nat, o: Object, size: nat)
    requires Writable(o) && FrameAt(file, offset, o)
    ensures RestoreAt(file, offset, size) == if size == |Payload(o)| then Ok(Original(o)) else Err(SizeMismatch)
  {
    hide LittleEndian, FromBytes, Read, LENGTH_LIMIT, Writable;
    HeaderIsRead(file, offset, o);
    BodyIsRead(file, offset, o);
    LengthsRoundTrip(o);
  }

  /** Keys without a query and keys of files that are not there restore nothing. */
  lemma BadKeysAreRefused(files: map<string, bytes>, key: string, url: string, offset: nat, size: nat)
    ensures '?' !in key ==> RestoreKey(files, key) == Err(BadUrl)
    ensures '?' !in url && '#' !in url && url !in files ==> RestoreKey(files, CreateUrl(url, offset, size)) == Err(NoFile)
  {
    hide CreateUrl, ParseUrl, RestoreAt;
    NoQuery(key);
    UrlRoundTrip(url, offset, size);
  }

  /** A key of a spilled object restores exactly that object. */
  lemma SpillRoundTrip(files: map<string, bytes>, objects: seq<Object>, url: string, i: nat)
    requires AllWritable(objects) && i < |objects| && '?' !in url && '#' !in url
    requires url in files && files[url] == Frames(objects)
    ensures var o := objects[i];
      RestoreKey(files, KeyOf(objects, i, url)) == Ok(Original(o))
  {
    hide CreateUrl, ParseUrl, RestoreAt, Payload, Frames;
    FramesTile(objects, i);
    UrlRoundTrip(url, Offset(objects, i), |Payload(objects[i])|);
    FrameRoundTrip(Frames(objects), Offset(objects, i), objects[i]);
  }

  /** Restores objects one key at a time and counts the restored bytes; the first failure
      ends it. */
  method RestoreSpilledObjects(files: map<string, bytes>, keys: seq<string>) returns (store: seq<Restored>, total: Result<nat>)
    ensures total.Ok? <==> forall i :: 0 <= i < |keys| ==> RestoreKey(files, keys[i]).Ok?
    ensures total.Ok? ==> |store| == |keys| && total.value == Sum(Sizes(store))
    ensures total.Err? ==> |store| < |keys| && RestoreKey(files, keys[|store|]) == Err(total.error)
    ensures forall i :: 0 <= i < |store| ==> i < |keys| && RestoreKey(files, keys[i]) == Ok(store[i])
  {
    hide ParseUrl, Read, FromBytes;
    store := [];
    var count: nat := 0;
    for i := 0 to |keys|
      invariant |store| == i && count == Sum(Sizes(store))
      invariant forall j :: 0 <= j < i ==> RestoreKey(files, keys[j]) == Ok(store[j])
    {
      var parsed := ParseUrl(keys[i]);
      if parsed.Err? {
        return store, Err(BadUrl);
      }
      var offset := parsed.value.offset;
      if parsed.value.baseUrl !in files {
        return store, Err(NoFile);
      }
      var file := files[parsed.value.baseUrl];
      var addressLength := FromBytes(Read(file, offset, 8));
      var metadataLength := FromBytes(Read(file, offset + 8, 8));
      var bufferLength := FromBytes(Read(file, offset + 16, 8));
      if addressLength + metadataLength + bufferLength + HEADER_LENGTH != parsed.value.size {
        return store, Err(SizeMismatch);
      }
      count := count + bufferLength;
      var start := offset + HEADER_LENGTH;
      var owner := Read(file, start, addressLength);
      var metadata := Read(file, start + addressLength, metadataLength);
      var data := Read(file, start + addressLength + metadataLength, bufferLength);
      SizesAppend(store, Restored(owner, metadata, bufferLength, data));
      store := store + [Restored(owner, metadata, bufferLength, data)];
    }
    total := Ok(count);
  }

  lemma SizesAppend(store: seq<Restored>, r: Restored)
    ensures Sum(Sizes(store + [r])) == Sum(Sizes(store)) + r.size
  {
    assert Sizes(store + [r]) == Sizes(store) + [r.size];
    SumAppend(Sizes(store), r.size);
  }

  function Sizes(store: seq<Restored>): seq<int> {
    seq(|store|, i requires 0 <= i < |store| => store[i].size)
  }

  // -------------------------------------------------------------- spill, then restore

  /** Spilling and then restoring any of the objects in any order gives exactly these
      objects, and the total is the sum of the lengths of their buffers. */
  method SpillAndRestore(objects: seq<Object>, url: string, picks: seq<nat>) returns (store: seq<Restored>, total: Result<nat>)
    requires AllWritable(objects) && '?' !in url && '#' !in url
    requires forall k :: 0 <= k < |picks| ==> picks[k] < |objects|
    ensures |store| == |picks| && forall k :: 0 <= k < |picks| ==> store[k] == Original(objects[picks[k]])
    ensures total == Ok(Sum(seq(|picks|, k requires 0 <= k < |picks| => |objects[picks[k]].buffer.data| as int)))
  {
    hide RestoreKey, KeyOf, Frames, Sum;
    var file, keys := WriteMultipleObjects(objects, url);
    var files := map[url := file];
    var chosen := seq(|picks|, k requires 0 <= k < |picks| => keys.value[picks[k]]);
    forall k | 0 <= k < |picks|
      ensures RestoreKey(files, chosen[k]) == Ok(Original(objects[picks[k]]))
    {
      SpillRoundTrip(files, objects, url, picks[k]);
    }
    store, total := RestoreSpilledObjects(files, chosen);
    assert Sizes(store) == seq(|picks|, k requires 0 <= k < |picks| => |objects[picks[k]].buffer.data| as int);
  }
}
