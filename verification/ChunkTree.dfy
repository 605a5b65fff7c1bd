/** storage/store.go and storage/chunk_store.go: files as trees of content-addressed chunks.

    The network of replicas is one first-write-wins store; hashing is a parameter of which only the
    length is known. */
module ChunkTree {
  import opened Basics
  import opened Bytes
  import opened NumberTheory

  const TYPE_BASIC: byte := 0
  const TYPE_META: byte := 1
  const CHUNK_SIZE := 4096

  function HashLength(hashType: nat): (n: nat)
    requires hashType < 6
    ensures 28 <= n <= 64
  {
    if hashType == 0 || hashType == 4 then 28
    else if hashType == 1 || hashType == 5 then 32
    else if hashType == 2 then 48
    else 64
  }

  /** GetHash for every supported type. */
  type Hash = (Bytes, nat) -> Bytes

  ghost predicate Hashes(h: Hash) {
    forall data, t :: t < 6 ==> |h(data, t)| == HashLength(t)
  }

  function Key(h: Hash, t: nat, fileType: byte, chunk: Bytes): Bytes
    requires t < 6
  {
    [fileType, t] + h(chunk, t)
  }

  type Chunks = map<Bytes, Bytes>

  function Put(m: Chunks, key: Bytes, value: Bytes): Chunks {
    if key in m then m else m[key := value]
  }

  // ---- the store ----

  class ChunkStore {
    var chunkMap: Chunks
    var allChunks: seq<Bytes>

    /** allChunks lists the keys, once each. */
    ghost predicate Valid()
      reads this
    {
      && (forall i, j :: 0 <= i < j < |allChunks| ==> allChunks[i] != allChunks[j])
      && (forall key :: key in allChunks <==> key in chunkMap)
    }

    constructor ()
      ensures Valid() && chunkMap == map[]
    {
      chunkMap, allChunks := map[], [];
    }

    method Store(key: Bytes, value: Bytes)
      requires Valid()
      modifies this
      ensures Valid() && chunkMap == Put(old(chunkMap), key, value)
      ensures allChunks == if key in old(chunkMap) then old(allChunks) else old(allChunks) + [key]
    {
      if key !in chunkMap {
        allChunks := allChunks + [key];
        chunkMap := chunkMap[key := value];
      }
    }

    method Get(key: Bytes) returns (val: Option<Bytes>)
      requires Valid()
      ensures val == if key in chunkMap then Some(chunkMap[key]) else None
    {
      val := if key in chunkMap then Some(chunkMap[key]) else None;
    }
  }

  // ---- storing, as a function of the store ----

  function ChunkLength(data: Bytes): nat {
    if CHUNK_SIZE < |data| then CHUNK_SIZE else |data|
  }

  function First(data: Bytes): Bytes {
    data[..ChunkLength(data)]
  }

  function Rest(data: Bytes): (r: Bytes)
    ensures data != [] ==> |r| < |data|
  {
    data[ChunkLength(data)..]
  }

  /** The keys of the chunks of data, one after the other. */
  function MetaFile(h: Hash, t: nat, fileType: byte, data: Bytes): Bytes
    requires t < 6
    decreases |data|
  {
    if data == [] then [] else Key(h, t, fileType, First(data)) + MetaFile(h, t, fileType, Rest(data))
  }

  function PutChunks(h: Hash, t: nat, fileType: byte, data: Bytes, m: Chunks): Chunks
    requires t < 6
    decreases |data|
  {
    if data == [] then m else
    PutChunks(h, t, fileType, Rest(data), Put(m, Key(h, t, fileType, First(data)), First(data)))
  }

  lemma {:induction false} MetaFileLength(h: Hash, t: nat, fileType: byte, data: Bytes)
    requires t < 6 && Hashes(h)
    ensures CHUNK_SIZE * |MetaFile(h, t, fileType, data)| <= (|data| + CHUNK_SIZE - 1) * 66
    ensures data != [] ==> |MetaFile(h, t, fileType, data)| >= 30
    decreases |data|
  {
    if data != [] {
      MetaFileLength(h, t, fileType, Rest(data));
      assert |Key(h, t, fileType, First(data))| <= 66;
      if |data| <= CHUNK_SIZE {
        assert Rest(data) == [];
      }
    }
  }

  /** Full and partial chunks of n bytes of data. */
  function Blocks(n: nat): nat {
    (n + 4095) / 4096
  }

  function Times(n: nat, len: nat): nat {
    n * len
  }

  lemma OneMore(n: nat, len: nat)
    ensures Times(n + 1, len) == Times(n, len) + len && Times(0, len) == 0
  {
  }

  lemma BlocksOfRest(data: Bytes)
    ensures Blocks(|data|) == if data == [] then 0 else Blocks(|Rest(data)|) + 1
  {
  }

  lemma {:induction false} OneKeyEach(h: Hash, t: nat, fileType: byte, data: Bytes)
    requires t < 6 && Hashes(h)
    ensures |MetaFile(h, t, fileType, data)| == Times(Blocks(|data|), 2 + HashLength(t))
    decreases |data|
  {
    hide HashLength, Blocks, Times;
    BlocksOfRest(data);
    OneMore(if data == [] then 0 else Blocks(|Rest(data)|), 2 + HashLength(t));
    if data != [] {
      OneKeyEach(h, t, fileType, Rest(data));
      assert |Key(h, t, fileType, First(data))| == 2 + HashLength(t);
    }
  }

  /** A metafile holds one key, of two type bytes and a hash, for each full or partial chunk of 4096 bytes. */
  lemma MetaFileSize(h: Hash, t: nat, fileType: byte, data: Bytes)
    requires t < 6 && Hashes(h)
    ensures |MetaFile(h, t, fileType, data)| == (|data| + 4095) / 4096 * (2 + [28, 32, 48, 64, 28, 32][t])
  {
    hide MetaFile;
    OneKeyEach(h, t, fileType, data);
    assert HashLength(t) == [28, 32, 48, 64, 28, 32][t];
  }

  /** A metafile that is not small is strictly shorter than its data: this is why storing ends. */
  lemma MetaFileShrinks(h: Hash, t: nat, fileType: byte, data: Bytes)
    requires t < 6 && Hashes(h) && |MetaFile(h, t, fileType, data)| >= CHUNK_SIZE
    ensures |MetaFile(h, t, fileType, data)| < |data|
  {
    MetaFileLength(h, t, fileType, data);
  }

  function StoreTree(h: Hash, t: nat, fileType: byte, data: Bytes, m: Chunks): (Chunks, Bytes)
    requires t < 6 && Hashes(h)
    decreases |data|
  {
    var meta := MetaFile(h, t, fileType, data);
    var m1 := PutChunks(h, t, fileType, data, m);
    if |meta| < CHUNK_SIZE then
      var metaHash := Key(h, t, TYPE_META, meta);
      (Put(m1, metaHash, meta), metaHash)
    else
      MetaFileShrinks(h, t, fileType, data);
      StoreTree(h, t, TYPE_META, meta, m1)
  }

  // ---- retrieving, as a function of the store ----

  datatype Outcome = Found(data: Bytes) | Missing | Panics | OutOfFuel

  /** The chunks under the keys of a list of blockLength-byte keys. */
  function Fetch(m: Chunks, keys: Bytes, blockLength: nat): Outcome
    requires blockLength > 0
    decreases |keys|
  {
    if keys == [] then Found([])
    else if |keys| < blockLength then Panics
    else if keys[..blockLength] !in m then Missing
    else
      match Fetch(m, keys[blockLength..], blockLength)
      case Found(rest) => Found(m[keys[..blockLength]] + rest)
      case other => other
  }

  /** The first key tells the type of the whole list; the code has no bound on the recursion. */
  function RetrieveTree(m: Chunks, metaHash: Bytes, fuel: nat): Outcome
    decreases fuel
  {
    if fuel == 0 then OutOfFuel
    else if |metaHash| < 2 || metaHash[1] >= 6 then Panics
    else
      match Fetch(m, metaHash, 2 + HashLength(metaHash[1]))
      case Found(res) => if metaHash[0] == TYPE_META then RetrieveTree(m, res, fuel - 1) else Found(res)
      case other => other
  }

  /** The chunk of every whole key of the list is stored. */
  ghost predicate AllStored(m: Chunks, keys: Bytes, blockLength: nat)
    requires blockLength > 0
  {
    forall i: nat :: Residue(i, blockLength) == 0 && i + blockLength <= |keys| ==> keys[i..i + blockLength] in m
  }

  function Residue(i: nat, n: nat): nat
    requires n > 0
  {
    i % n
  }

  lemma AllStoredStep(m: Chunks, keys: Bytes, blockLength: nat)
    requires 0 < blockLength <= |keys|
    ensures AllStored(m, keys, blockLength) <==>
      keys[..blockLength] in m && AllStored(m, keys[blockLength..], blockLength)
    ensures Residue(|keys|, blockLength) == Residue(|keys[blockLength..]|, blockLength)
  {
    hide Residue;
    var rest := keys[blockLength..];
    SameResidue(|rest|, blockLength);
    if AllStored(m, keys, blockLength) {
      SmallResidue(0, blockLength);
      assert keys[0..0 + blockLength] == keys[..blockLength];
      forall i: nat | Residue(i, blockLength) == 0 && i + blockLength <= |rest| ensures rest[i..i + blockLength] in m {
        SameResidue(i, blockLength);
        var k := i + blockLength;
        assert rest[i..i + blockLength] == keys[k..k + blockLength];
      }
    }
    if keys[..blockLength] in m && AllStored(m, rest, blockLength) {
      forall i: nat | Residue(i, blockLength) == 0 && i + blockLength <= |keys|
        ensures keys[i..i + blockLength] in m
      {
        if i < blockLength {
          SmallResidue(i, blockLength);
          assert keys[i..i + blockLength] == keys[..blockLength];
        } else {
          var k: nat := i - blockLength;
          SameResidue(k, blockLength);
          assert rest[k..k + blockLength] == keys[i..i + blockLength];
        }
      }
    }
  }

  lemma SmallResidue(i: nat, n: nat)
    requires i < n
    ensures Residue(i, n) == i
  {
  }

  lemma SameResidue(i: nat, n: nat)
    requires n > 0
    ensures Residue(i + n, n) == Residue(i, n)
  {
    DivModUnique(i / n + 1, i % n, n);
    assert (i / n + 1) * n == (i / n) * n + n;
  }

  /** A fetch succeeds exactly when every key is whole and its chunk stored; it misses a chunk when that of a
      whole key is not stored, and panics when all that is wrong is an incomplete last key. */
  lemma {:induction false} FetchOutcome(m: Chunks, keys: Bytes, blockLength: nat)
    requires blockLength > 0
    ensures var o := Fetch(m, keys, blockLength);
      && (o.Found? <==> AllStored(m, keys, blockLength) && Residue(|keys|, blockLength) == 0)
      && (o.Panics? <==> AllStored(m, keys, blockLength) && Residue(|keys|, blockLength) != 0)
      && (o.Missing? <==> !AllStored(m, keys, blockLength))
    decreases |keys|
  {
    hide AllStored, Residue;
    if |keys| >= blockLength {
      AllStoredStep(m, keys, blockLength);
      FetchOutcome(m, keys[blockLength..], blockLength);
    } else {
      NoWholeKey(m, keys, blockLength);
    }
  }

  lemma NoWholeKey(m: Chunks, keys: Bytes, blockLength: nat)
    requires |keys| < blockLength
    ensures AllStored(m, keys, blockLength) && Residue(|keys|, blockLength) == |keys|
  {
    SmallResidue(|keys|, blockLength);
  }

  /** The outcome of a fetch whose first part is known. */
  function After(res: Bytes, o: Outcome): Outcome {
    match o
    case Found(rest) => Found(res + rest)
    case other => other
  }

  lemma FetchStep(m: Chunks, keys: Bytes, i: nat, blockLength: nat, res: Bytes)
    requires blockLength > 0 && i < |keys|
    ensures i + blockLength > |keys| ==> After(res, Fetch(m, keys[i..], blockLength)) == Panics
    ensures i + blockLength <= |keys| ==>
      var key := keys[i..i + blockLength];
      After(res, Fetch(m, keys[i..], blockLength)) == if key !in m then Missing else
        After(res + m[key], Fetch(m, keys[i + blockLength..], blockLength))
  {
    if i + blockLength <= |keys| {
      assert keys[i..][..blockLength] == keys[i..i + blockLength];
      assert keys[i..][blockLength..] == keys[i + blockLength..];
      match Fetch(m, keys[i + blockLength..], blockLength)
      case Found(rest) =>
        if keys[i..i + blockLength] in m {
          assert res + (m[keys[i..i + blockLength]] + rest) == res + m[keys[i..i + blockLength]] + rest;
        }
      case other =>
    }
  }

  function Tail(data: Bytes, i: nat): Bytes {
    if i < |data| then data[i..] else []
  }

  lemma StoreStep(h: Hash, t: nat, fileType: byte, data: Bytes, i: nat, m: Chunks)
    requires t < 6 && i < |data|
    ensures var end := if i + CHUNK_SIZE < |data| then i + CHUNK_SIZE else |data|;
      var chunk := data[i..end];
      var key := Key(h, t, fileType, chunk);
      && MetaFile(h, t, fileType, Tail(data, i)) == key + MetaFile(h, t, fileType, Tail(data, i + CHUNK_SIZE))
      && PutChunks(h, t, fileType, Tail(data, i), m)
           == PutChunks(h, t, fileType, Tail(data, i + CHUNK_SIZE), Put(m, key, chunk))
  {
    var end := if i + CHUNK_SIZE < |data| then i + CHUNK_SIZE else |data|;
    assert data[i..][..end - i] == data[i..end];
    assert First(Tail(data, i)) == data[i..end] && Rest(Tail(data, i)) == Tail(data, i + CHUNK_SIZE);
  }

  lemma StoreEnds(h: Hash, t: nat, fileType: byte, data: Bytes, i: nat, m: Chunks)
    requires t < 6
    ensures Tail(data, 0) == data
    ensures i >= |data| ==>
      (MetaFile(h, t, fileType, Tail(data, i)) == [] && PutChunks(h, t, fileType, Tail(data, i), m) == m)
  {
  }

  /** Where the key of the chunk at position i starts in the metafile. */
  function Offset(i: nat, blockLength: nat): nat {
    (i / CHUNK_SIZE) * blockLength
  }

  lemma OffsetStep(i: nat, blockLength: nat)
    ensures Offset(0, blockLength) == 0
    ensures Offset(i + CHUNK_SIZE, blockLength) == Offset(i, blockLength) + blockLength
  {
    assert (i + CHUNK_SIZE) / CHUNK_SIZE == i / CHUNK_SIZE + 1;
    assert (i / CHUNK_SIZE + 1) * blockLength == (i / CHUNK_SIZE) * blockLength + blockLength;
  }

  /** The two appends of the loop: type bytes, then hash. */
  function KeyAppended(h: Hash, metaFile: Bytes, t: nat, fileType: byte, chunk: Bytes): (r: Bytes)
    requires t < 6 && Hashes(h)
    ensures r == metaFile + Key(h, t, fileType, chunk) && |r| == |metaFile| + 2 + HashLength(t)
    ensures r[|metaFile|..|metaFile| + 2 + HashLength(t)] == Key(h, t, fileType, chunk)
  {
    metaFile + [fileType, t] + h(chunk, t)
  }

  lemma Appended(metaFile: Bytes, key: Bytes, rest: Bytes)
    ensures metaFile + (key + rest) == metaFile + key + rest
  {
  }

  // ---- both in place ----

  class DStore {
    const chunkStore: ChunkStore

    constructor ()
      ensures fresh(chunkStore) && chunkStore.Valid() && chunkStore.chunkMap == map[]
    {
      chunkStore := new ChunkStore();
    }

    /** One turn of the loop of StoreFile: the key is read back from the metafile. */
    method StoreChunk(h: Hash, chunk: Bytes, hashType: byte, fileType: byte, metaFile: Bytes, offset: nat)
      returns (r: Bytes)
      requires hashType < 6 && Hashes(h) && chunkStore.Valid() && offset == |metaFile|
      modifies chunkStore
      ensures chunkStore.Valid()
      ensures r == metaFile + Key(h, hashType, fileType, chunk) && |r| == offset + 2 + HashLength(hashType)
      ensures chunkStore.chunkMap == Put(old(chunkStore.chunkMap), Key(h, hashType, fileType, chunk), chunk)
    {
      r := KeyAppended(h, metaFile, hashType, fileType, chunk);
      var key := r[offset..offset + 2 + HashLength(hashType)];
      chunkStore.Store(key, chunk);
    }

    /** The loop of StoreFile. */
    method StoreChunks(h: Hash, data: Bytes, hashType: byte, fileType: byte) returns (metaFile: Bytes)
      requires hashType < 6 && Hashes(h) && chunkStore.Valid()
      modifies chunkStore
      ensures chunkStore.Valid() && metaFile == MetaFile(h, hashType, fileType, data)
      ensures chunkStore.chunkMap == PutChunks(h, hashType, fileType, data, old(chunkStore.chunkMap))
    {
      hide MetaFile, PutChunks, Tail, Offset, Key, HashLength, Put;
      var hashBlockLen := 2 + HashLength(hashType);
      metaFile := [];
      var i := 0;
      StoreEnds(h, hashType, fileType, data, 0, chunkStore.chunkMap);
      OffsetStep(0, hashBlockLen);
      while i < |data|
        invariant |metaFile| == Offset(i, hashBlockLen) && chunkStore.Valid()
        invariant MetaFile(h, hashType, fileType, data) == metaFile + MetaFile(h, hashType, fileType, Tail(data, i))
        invariant PutChunks(h, hashType, fileType, data, old(chunkStore.chunkMap))
          == PutChunks(h, hashType, fileType, Tail(data, i), chunkStore.chunkMap)
        decreases |data| - i
      {
        var end := if i + CHUNK_SIZE < |data| then i + CHUNK_SIZE else |data|;
        var chunk := data[i..end];
        StoreStep(h, hashType, fileType, data, i, chunkStore.chunkMap);
        OffsetStep(i, hashBlockLen);
        Appended(metaFile, Key(h, hashType, fileType, chunk),
                 MetaFile(h, hashType, fileType, Tail(data, i + CHUNK_SIZE)));
        metaFile := StoreChunk(h, chunk, hashType, fileType, metaFile, Offset(i, hashBlockLen));
        i := i + CHUNK_SIZE;
      }
      StoreEnds(h, hashType, fileType, data, i, chunkStore.chunkMap);
    }

    method StoreFile(h: Hash, data: Bytes, hashType: byte, fileType: byte) returns (metaHash: Bytes)
      requires hashType < 6 && Hashes(h) && chunkStore.Valid()
      modifies chunkStore
      ensures chunkStore.Valid()
      ensures (chunkStore.chunkMap, metaHash) == StoreTree(h, hashType, fileType, data, old(chunkStore.chunkMap))
      ensures |metaHash| == 2 + [28, 32, 48, 64, 28, 32][hashType] && metaHash[0] == 1 && metaHash[1] == hashType
      decreases |data|
    {
      var metaFile := StoreChunks(h, data, hashType, fileType);
      if |metaFile| < CHUNK_SIZE {
        var tempHash := h(metaFile, hashType);
        metaHash := [TYPE_META, hashType] + tempHash;
        chunkStore.Store(metaHash, metaFile);
        return;
      }
      MetaFileShrinks(h, hashType, fileType, data);
      metaHash := StoreFile(h, metaFile, hashType, TYPE_META);
    }

    method RetrieveFile(metaHash: Bytes, fuel: nat) returns (r: Outcome)
      requires chunkStore.Valid()
      ensures r == RetrieveTree(chunkStore.chunkMap, metaHash, fuel)
      decreases fuel
    {
      if fuel == 0 { return OutOfFuel; }
      if |metaHash| < 2 || metaHash[1] >= 6 { return Panics; }
      var o := FetchAll(metaHash, 2 + HashLength(metaHash[1]));
      if !o.Found? { return o; }
      var res := o.data;
      if metaHash[0] == TYPE_META {
        r := RetrieveFile(res, fuel - 1);
        return;
      }
      return Found(res);
    }

    /** The loop of RetrieveFile. */
    method FetchAll(metaHash: Bytes, hashBlock: nat) returns (r: Outcome)
      requires chunkStore.Valid() && hashBlock > 0
      ensures r == Fetch(chunkStore.chunkMap, metaHash, hashBlock)
    {
      hide Fetch, After;
      ghost var m := chunkStore.chunkMap;
      var res: Bytes := [];
      var i := 0;
      FetchEnds(m, metaHash, hashBlock, res);
      while i < |metaHash|
        invariant 0 <= i <= |metaHash|
        invariant Fetch(m, metaHash, hashBlock) == After(res, Fetch(m, metaHash[i..], hashBlock))
        decreases |metaHash| - i
      {
        FetchStep(m, metaHash, i, hashBlock, res);
        if i + hashBlock > |metaHash| { return Panics; }
        var temp := chunkStore.Get(metaHash[i..i + hashBlock]);
        if temp.None? { return Missing; }
        res := res + temp.value;
        i := i + hashBlock;
      }
      FetchEnds(m, metaHash, hashBlock, res);
      r := Found(res);
    }
  }

  lemma FetchEnds(m: Chunks, keys: Bytes, blockLength: nat, res: Bytes)
    requires blockLength > 0
    ensures After([], Fetch(m, keys[0..], blockLength)) == Fetch(m, keys, blockLength)
    ensures After(res, Fetch(m, keys[|keys|..], blockLength)) == Found(res)
  {
    assert keys[0..] == keys;
    AfterNothing(Fetch(m, keys, blockLength));
    assert res + [] == res;
  }

  lemma AfterNothing(o: Outcome)
    ensures After([], o) == o
  {
    if o.Found? { assert [] + o.data == o.data; }
  }

  // ---- the round trip ----

  /** The chunks of one level. */
  ghost function ChunksOf(data: Bytes): set<Bytes>
    decreases |data|
  {
    if data == [] then {} else {First(data)} + ChunksOf(Rest(data))
  }

  /** Everything StoreFile writes, at any level of the tree. */
  ghost function Written(h: Hash, t: nat, fileType: byte, data: Bytes): set<Bytes>
    requires t < 6 && Hashes(h)
    decreases |data|
  {
    var meta := MetaFile(h, t, fileType, data);
    ChunksOf(data) + if |meta| < CHUNK_SIZE then {meta} else
      MetaFileShrinks(h, t, fileType, data);
      Written(h, t, TYPE_META, meta)
  }

  /** No two of these chunks have the same hash. */
  ghost predicate NoCollision(h: Hash, t: nat, chunks: set<Bytes>) {
    forall c, d :: c in chunks && d in chunks && h(c, t) == h(d, t) ==> c == d
  }

  /** Whatever the store holds under the key of one of these chunks is that chunk. */
  ghost predicate Agrees(h: Hash, t: nat, m: Chunks, chunks: set<Bytes>)
    requires t < 6
  {
    forall c, f :: c in chunks && Key(h, t, f, c) in m ==> m[Key(h, t, f, c)] == c
  }

  ghost predicate Extends(m: Chunks, m': Chunks) {
    forall key :: key in m ==> key in m' && m'[key] == m[key]
  }

  lemma KeyInjective(h: Hash, t: nat, f: byte, c: Bytes, g: byte, d: Bytes)
    requires t < 6 && Key(h, t, f, c) == Key(h, t, g, d)
    ensures f == g && h(c, t) == h(d, t)
  {
    assert Key(h, t, f, c)[0] == f && Key(h, t, g, d)[0] == g;
    assert Key(h, t, f, c)[2..] == h(c, t) && Key(h, t, g, d)[2..] == h(d, t);
  }

  lemma PutAgrees(h: Hash, t: nat, m: Chunks, chunks: set<Bytes>, f: byte, c: Bytes)
    requires t < 6 && NoCollision(h, t, chunks) && Agrees(h, t, m, chunks) && c in chunks
    ensures var m' := Put(m, Key(h, t, f, c), c);
      && Agrees(h, t, m', chunks) && Extends(m, m')
      && Key(h, t, f, c) in m' && m'[Key(h, t, f, c)] == c
  {
    var m' := Put(m, Key(h, t, f, c), c);
    forall d, g | d in chunks && Key(h, t, g, d) in m' ensures m'[Key(h, t, g, d)] == d {
      if Key(h, t, g, d) == Key(h, t, f, c) {
        KeyInjective(h, t, g, d, f, c);
      }
    }
  }

  /** The store holds every chunk of data under its key. */
  ghost predicate Holds(h: Hash, t: nat, f: byte, data: Bytes, m: Chunks)
    requires t < 6
    decreases |data|
  {
    data == [] || (
      && Key(h, t, f, First(data)) in m && m[Key(h, t, f, First(data))] == First(data)
      && Holds(h, t, f, Rest(data), m))
  }

  lemma {:induction false} PutChunksHolds(h: Hash, t: nat, f: byte, data: Bytes, m: Chunks, chunks: set<Bytes>)
    requires t < 6 && NoCollision(h, t, chunks) && Agrees(h, t, m, chunks) && ChunksOf(data) <= chunks
    ensures var m' := PutChunks(h, t, f, data, m);
      Agrees(h, t, m', chunks) && Extends(m, m') && Holds(h, t, f, data, m')
    decreases |data|
  {
    hide Key, First, Rest, Agrees, NoCollision;
    if data != [] {
      var m1 := Put(m, Key(h, t, f, First(data)), First(data));
      PutAgrees(h, t, m, chunks, f, First(data));
      RestShorter(data);
      PutChunksHolds(h, t, f, Rest(data), m1, chunks);
    }
  }

  lemma RestShorter(data: Bytes)
    requires data != []
    ensures |Rest(data)| < |data| && First(data) + Rest(data) == data
  {
  }

  lemma {:induction false} ExtendsHolds(h: Hash, t: nat, f: byte, data: Bytes, m: Chunks, m': Chunks)
    requires t < 6 && Holds(h, t, f, data, m) && Extends(m, m')
    ensures Holds(h, t, f, data, m')
    decreases |data|
  {
    if data != [] {
      ExtendsHolds(h, t, f, Rest(data), m, m');
    }
  }

  /** Fetching the keys of a level gives its data. */
  lemma {:induction false} FetchHeld(h: Hash, t: nat, f: byte, data: Bytes, m: Chunks)
    requires t < 6 && Hashes(h) && Holds(h, t, f, data, m)
    ensures Fetch(m, MetaFile(h, t, f, data), 2 + HashLength(t)) == Found(data)
    decreases |data|
  {
    if data != [] {
      var key, rest := Key(h, t, f, First(data)), MetaFile(h, t, f, Rest(data));
      FetchHeld(h, t, f, Rest(data), m);
      assert (key + rest)[..|key|] == key && (key + rest)[|key|..] == rest;
      RestShorter(data);
    }
  }

  /** Retrieving the keys of a level gives its data, or goes on with it when it is itself made of keys. */
  lemma RetrieveLevel(h: Hash, t: nat, f: byte, data: Bytes, m: Chunks, fuel: nat)
    requires t < 6 && Hashes(h) && Holds(h, t, f, data, m) && data != [] && fuel > 0
    ensures RetrieveTree(m, MetaFile(h, t, f, data), fuel)
      == if f == TYPE_META then RetrieveTree(m, data, fuel - 1) else Found(data)
  {
    hide MetaFile, Fetch, Holds;
    FetchHeld(h, t, f, data, m);
    MetaFileStarts(h, t, f, data);
  }

  lemma MetaFileStarts(h: Hash, t: nat, f: byte, data: Bytes)
    requires t < 6 && data != []
    ensures var meta := MetaFile(h, t, f, data);
      |meta| >= 2 && meta[0] == f && meta[1] == t
  {
    assert MetaFile(h, t, f, data) == [f, t] + (h(First(data), t) + MetaFile(h, t, f, Rest(data)));
  }

  /** The number of calls a retrieval makes before it reaches the data of this level. */
  ghost function Depth(h: Hash, t: nat, f: byte, data: Bytes): nat
    requires t < 6 && Hashes(h)
    decreases |data|
  {
    var meta := MetaFile(h, t, f, data);
    if |meta| < CHUNK_SIZE then 2 else
    MetaFileShrinks(h, t, f, data);
    Depth(h, t, TYPE_META, meta) + 1
  }

  /** A level of a single chunk has a single key. */
  lemma OneChunk(h: Hash, t: nat, f: byte, data: Bytes, m: Chunks)
    requires t < 6 && data != [] && |data| <= CHUNK_SIZE
    requires Key(h, t, f, data) in m && m[Key(h, t, f, data)] == data
    ensures MetaFile(h, t, f, data) == Key(h, t, f, data) && Holds(h, t, f, data, m)
  {
    hide Key;
    assert First(data) == data && Rest(data) == [];
  }

  lemma {:induction false} StoreTreeHolds(h: Hash, t: nat, f: byte, data: Bytes, m: Chunks, chunks: set<Bytes>,
                                          fuel: nat)
    requires t < 6 && Hashes(h) && data != [] && fuel >= Depth(h, t, f, data)
    requires NoCollision(h, t, chunks) && Agrees(h, t, m, chunks) && Written(h, t, f, data) <= chunks
    ensures var (m', metaHash) := StoreTree(h, t, f, data, m);
      && Extends(m, m') && Agrees(h, t, m', chunks)
      && RetrieveTree(m', metaHash, fuel)
           == (if f == TYPE_META then RetrieveTree(m', data, fuel - Depth(h, t, f, data)) else Found(data))
    decreases |data|
  {
    hide Agrees, NoCollision, Key;
    var meta, m1 := MetaFile(h, t, f, data), PutChunks(h, t, f, data, m);
    PutChunksHolds(h, t, f, data, m, chunks);
    MetaFileLength(h, t, f, data);
    if |meta| < CHUNK_SIZE {
      PutAgrees(h, t, m1, chunks, TYPE_META, meta);
      var m2 := Put(m1, Key(h, t, TYPE_META, meta), meta);
      ExtendsHolds(h, t, f, data, m1, m2);
      OneChunk(h, t, TYPE_META, meta, m2);
      RetrieveLevel(h, t, TYPE_META, meta, m2, fuel);
      RetrieveLevel(h, t, f, data, m2, fuel - 1);
    } else {
      MetaFileShrinks(h, t, f, data);
      StoreTreeHolds(h, t, TYPE_META, meta, m1, chunks, fuel);
      var m2 := StoreTree(h, t, TYPE_META, meta, m1).0;
      ExtendsHolds(h, t, f, data, m1, m2);
      RetrieveLevel(h, t, f, data, m2, fuel - Depth(h, t, TYPE_META, meta));
    }
  }

  /** Retrieving a stored file gives it back, at any depth of the tree, unless two of its chunks or
      one of them and an earlier chunk under its key collide. */
  lemma RetrieveStored(h: Hash, t: nat, data: Bytes, m: Chunks, fuel: nat)
    requires t < 6 && Hashes(h) && data != [] && fuel >= Depth(h, t, TYPE_BASIC, data)
    requires var chunks := Written(h, t, TYPE_BASIC, data);
      NoCollision(h, t, chunks) && Agrees(h, t, m, chunks)
    ensures var (m', metaHash) := StoreTree(h, t, TYPE_BASIC, data, m);
      RetrieveTree(m', metaHash, fuel) == Found(data)
  {
    StoreTreeHolds(h, t, TYPE_BASIC, data, m, Written(h, t, TYPE_BASIC, data), fuel);
  }

  /** The empty file is the exception: it is stored, but retrieving it indexes an empty list of keys. */
  lemma EmptyFilePanics(h: Hash, t: nat, m: Chunks, fuel: nat)
    requires t < 6 && Hashes(h) && fuel >= 2 && Agrees(h, t, m, {[]})
    ensures var (m', metaHash) := StoreTree(h, t, TYPE_BASIC, [], m);
      RetrieveTree(m', metaHash, fuel) == Panics
  {
    var metaHash := Key(h, t, TYPE_META, []);
    var m' := Put(m, metaHash, []);
    assert metaHash[..2 + HashLength(t)] == metaHash && metaHash[2 + HashLength(t)..] == [];
    assert Fetch(m', metaHash, 2 + HashLength(t)) == Found([]) by {
      assert Fetch(m', [], 2 + HashLength(t)) == Found([]);
      assert m'[metaHash] + [] == [];
    }
  }

  // ---- what was stored before ----

  lemma {:induction false} PutChunksExtends(h: Hash, t: nat, f: byte, data: Bytes, m: Chunks)
    requires t < 6
    ensures Extends(m, PutChunks(h, t, f, data, m))
    decreases |data|
  {
    if data != [] {
      PutChunksExtends(h, t, f, Rest(data), Put(m, Key(h, t, f, First(data)), First(data)));
    }
  }

  lemma {:induction false} StoreTreeExtends(h: Hash, t: nat, f: byte, data: Bytes, m: Chunks)
    requires t < 6 && Hashes(h)
    ensures Extends(m, StoreTree(h, t, f, data, m).0)
    decreases |data|
  {
    hide Key, MetaFile;
    PutChunksExtends(h, t, f, data, m);
    if |MetaFile(h, t, f, data)| >= CHUNK_SIZE {
      MetaFileShrinks(h, t, f, data);
      StoreTreeExtends(h, t, TYPE_META, MetaFile(h, t, f, data), PutChunks(h, t, f, data, m));
    }
  }

  lemma {:induction false} FetchExtends(m: Chunks, m': Chunks, keys: Bytes, blockLength: nat)
    requires blockLength > 0 && Extends(m, m') && Fetch(m, keys, blockLength).Found?
    ensures Fetch(m', keys, blockLength) == Fetch(m, keys, blockLength)
    decreases |keys|
  {
    if keys != [] {
      FetchExtends(m, m', keys[blockLength..], blockLength);
    }
  }

  lemma {:induction false} RetrieveExtends(m: Chunks, m': Chunks, metaHash: Bytes, fuel: nat)
    requires Extends(m, m') && RetrieveTree(m, metaHash, fuel).Found?
    ensures RetrieveTree(m', metaHash, fuel) == RetrieveTree(m, metaHash, fuel)
    decreases fuel
  {
    var blockLength := 2 + HashLength(metaHash[1]);
    FetchExtends(m, m', metaHash, blockLength);
    if metaHash[0] == TYPE_META {
      RetrieveExtends(m, m', Fetch(m, metaHash, blockLength).data, fuel - 1);
    }
  }

  /** The first chunk written under a key stays, so storing another file, of any hash type and even one
      whose chunks collide with earlier ones, changes nothing that could be retrieved before. */
  lemma EarlierFilesStay(h: Hash, t: nat, f: byte, data: Bytes, m: Chunks, metaHash: Bytes, fuel: nat)
    requires t < 6 && Hashes(h) && RetrieveTree(m, metaHash, fuel).Found?
    ensures RetrieveTree(StoreTree(h, t, f, data, m).0, metaHash, fuel) == RetrieveTree(m, metaHash, fuel)
  {
    StoreTreeExtends(h, t, f, data, m);
    RetrieveExtends(m, StoreTree(h, t, f, data, m).0, metaHash, fuel);
  }

  // ---- stores built by storing files ----

  /** Every chunk is filed under its own hash. */
  ghost predicate ContentAddressed(h: Hash, m: Chunks) {
    forall key :: key in m ==> exists t: nat, f: byte :: t < 6 && key == Key(h, t, f, m[key])
  }

  lemma PutAddressed(h: Hash, t: nat, f: byte, c: Bytes, m: Chunks)
    requires t < 6 && ContentAddressed(h, m)
    ensures ContentAddressed(h, Put(m, Key(h, t, f, c), c))
  {
    var m' := Put(m, Key(h, t, f, c), c);
    forall key | key in m' ensures exists t: nat, f: byte :: t < 6 && key == Key(h, t, f, m'[key]) {
      if key !in m {
        assert key == Key(h, t, f, m'[key]);
      }
    }
  }

  lemma {:induction false} PutChunksAddressed(h: Hash, t: nat, f: byte, data: Bytes, m: Chunks)
    requires t < 6 && ContentAddressed(h, m)
    ensures ContentAddressed(h, PutChunks(h, t, f, data, m))
    decreases |data|
  {
    if data != [] {
      PutAddressed(h, t, f, First(data), m);
      PutChunksAddressed(h, t, f, Rest(data), Put(m, Key(h, t, f, First(data)), First(data)));
    }
  }

  /** Storing keeps a store content-addressed, */
  lemma {:induction false} StoreTreeAddressed(h: Hash, t: nat, f: byte, data: Bytes, m: Chunks)
    requires t < 6 && Hashes(h) && ContentAddressed(h, m)
    ensures ContentAddressed(h, StoreTree(h, t, f, data, m).0)
    decreases |data|
  {
    var meta, m1 := MetaFile(h, t, f, data), PutChunks(h, t, f, data, m);
    PutChunksAddressed(h, t, f, data, m);
    if |meta| < CHUNK_SIZE {
      PutAddressed(h, t, TYPE_META, meta, m1);
    } else {
      MetaFileShrinks(h, t, f, data);
      StoreTreeAddressed(h, t, TYPE_META, meta, m1);
    }
  }

  /** and such a store agrees with any chunks that do not collide with what it holds. */
  lemma AddressedAgrees(h: Hash, t: nat, m: Chunks, chunks: set<Bytes>)
    requires t < 6 && ContentAddressed(h, m) && NoCollision(h, t, chunks + m.Values)
    ensures Agrees(h, t, m, chunks)
  {
    forall c, f | c in chunks && Key(h, t, f, c) in m ensures m[Key(h, t, f, c)] == c {
      var key := Key(h, t, f, c);
      var u: nat, g: byte :| u < 6 && key == Key(h, u, g, m[key]);
      assert key[1] == t && key[1] == u;
      KeyInjective(h, t, f, c, g, m[key]);
      assert m[key] in m.Values;
    }
  }
}
