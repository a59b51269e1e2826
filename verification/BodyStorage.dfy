/**
 Request bodies kept in memory or in temporary files (common/body_storage.go), and
 the usage counters that decide where they go (common/disk_cache_config.go).

 Every storage has an identity; the cache keeps, for the proof, the open ones with
 their sizes. Clean-up of old files by age is not part of this model.
 */
module BodyStorage {

  newtype byte = x: int | 0 <= x < 256

  datatype Error = Closed | EndOfFile | BadSeek | TooLarge | Failed
  datatype Result<T> = Ok(value: T) | Err(error: Error)
  datatype Whence = Start | Current | End

  // ---------------------------------------------------------------------------
  // Sums over the open storages
  // ---------------------------------------------------------------------------

  /** Total size of the storages with identity below `n`. */
  ghost function Total(open: map<nat, nat>, n: nat): nat {
    if n == 0 then 0 else Total(open, n - 1) + if n - 1 in open then open[n - 1] else 0
  }

  ghost function Count(open: map<nat, nat>, n: nat): nat {
    if n == 0 then 0 else Count(open, n - 1) + if n - 1 in open then 1 else 0
  }

  lemma {:induction false} Alike(a: map<nat, nat>, b: map<nat, nat>, n: nat)
    requires forall i :: 0 <= i < n ==> (i in a <==> i in b) && (i in a ==> a[i] == b[i])
    ensures Total(a, n) == Total(b, n) && Count(a, n) == Count(b, n)
  {
    if n > 0 {
      Alike(a, b, n - 1);
    }
  }

  lemma Opened(open: map<nat, nat>, n: nat, size: nat)
    ensures Total(open[n := size], n + 1) == Total(open, n) + size
        && Count(open[n := size], n + 1) == Count(open, n) + 1
  {
    Alike(open, open[n := size], n);
  }

  lemma NotOpened(open: map<nat, nat>, n: nat)
    requires n !in open
    ensures Total(open, n + 1) == Total(open, n) && Count(open, n + 1) == Count(open, n)
  {
  }

  lemma {:induction false} Shut(open: map<nat, nat>, n: nat, id: nat)
    requires id < n && id in open
    ensures Total(open - {id}, n) == Total(open, n) - open[id] && Count(open - {id}, n) == Count(open, n) - 1
  {
    if id == n - 1 {
      Alike(open - {id}, open, n - 1);
    } else {
      Shut(open, n - 1, id);
    }
  }

  // ---------------------------------------------------------------------------
  // The cache
  // ---------------------------------------------------------------------------

  function Max(a: int, b: int): int {
    if a > b then a else b
  }

  class Cache {
    const enabled: bool
    const threshold: int
    const maxSize: int

    var diskFiles: int
    var diskBytes: int
    var memoryBuffers: int
    var memoryBytes: int
    var diskHits: int
    var memoryHits: int

    /** The temporary files that exist, and the next unused name. */
    var files: set<nat>
    var next: nat

    /** The open storages with their sizes. */
    ghost var disk: map<nat, nat>
    ghost var memory: map<nat, nat>
    /** No file has become longer than the length it was admitted with. */
    ghost var honest: bool

    /** The counters count and add up the open storages; there is one file per open disk storage. */
    ghost predicate Valid()
      reads this
    {
      && (forall id :: id in disk || id in memory ==> id < next)
      && files == disk.Keys
      && diskFiles == Count(disk, next) && diskBytes == Total(disk, next)
      && memoryBuffers == Count(memory, next) && memoryBytes == Total(memory, next)
      && (honest ==> diskBytes <= Max(maxSize, 0))
    }

    constructor (enabled: bool, threshold: int, maxSize: int)
      ensures Valid() && honest && disk == map[] && memory == map[] && next == 0
      ensures this.enabled == enabled && this.threshold == threshold && this.maxSize == maxSize
    {
      this.enabled, this.threshold, this.maxSize := enabled, threshold, maxSize;
      diskFiles, diskBytes, memoryBuffers, memoryBytes, diskHits, memoryHits := 0, 0, 0, 0, 0, 0;
      files, next, disk, memory, honest := {}, 0, map[], map[], true;
    }

    /** `IsDiskCacheAvailable`. */
    predicate Available(size: int)
      reads this
    {
      enabled && diskBytes + size <= maxSize
    }

    method IncrementMemory(size: nat) returns (id: nat)
      requires Valid()
      modifies this
      ensures Valid() && id == old(next) && next == id + 1
      ensures memory == old(memory)[id := size] && disk == old(disk) && files == old(files) && honest == old(honest)
      ensures diskBytes == old(diskBytes) && diskHits == old(diskHits) && memoryHits == old(memoryHits)
    {
      id, next := next, next + 1;
      Opened(memory, id, size);
      NotOpened(disk, id);
      memoryBuffers, memoryBytes := memoryBuffers + 1, memoryBytes + size;
      memory := memory[id := size];
    }

    method DecrementMemory(ghost id: nat, size: nat)
      requires Valid() && id in memory && memory[id] == size
      modifies this
      ensures Valid() && memory == old(memory) - {id} && disk == old(disk) && files == old(files)
          && honest == old(honest)
      ensures next == old(next) && diskBytes == old(diskBytes)
    {
      Shut(memory, next, id);
      memoryBuffers, memoryBytes := memoryBuffers - 1, memoryBytes - size;
      memory := memory - {id};
    }

    /** `checked` is the length the admission was decided on. */
    method IncrementDisk(id: nat, size: nat, ghost checked: int)
      requires Registered(id) && (diskBytes + checked <= maxSize)
      modifies this
      ensures Valid() && disk == old(disk)[id := size] && memory == old(memory) && files == old(files)
          && next == old(next)
      ensures honest == (old(honest) && size <= checked) && diskBytes == old(diskBytes) + size
      ensures diskHits == old(diskHits) && memoryHits == old(memoryHits)
    {
      Opened(disk, id, size);
      diskFiles, diskBytes := diskFiles + 1, diskBytes + size;
      disk := disk[id := size];
      honest := honest && size <= checked;
      assert disk.Keys == files;
    }

    /** The file `id` was just created and is not counted yet; otherwise all is well. */
    ghost predicate Registered(id: nat)
      reads this
    {
      && id + 1 == next && id !in disk && id !in memory && files == disk.Keys + {id}
      && (forall other :: other in disk || other in memory ==> other < next)
      && diskFiles == Count(disk, id) && diskBytes == Total(disk, id)
      && memoryBuffers == Count(memory, next) && memoryBytes == Total(memory, next)
      && (honest ==> diskBytes <= Max(maxSize, 0))
    }

    /** The decrement stops at zero; on a valid cache that never happens. */
    method DecrementDisk(id: nat, size: nat)
      requires Valid() && id in disk && disk[id] == size
      modifies this
      ensures Valid() && disk == old(disk) - {id} && memory == old(memory) && files == old(files) - {id}
          && honest == old(honest)
      ensures next == old(next) && diskFiles == old(diskFiles) - 1 && diskBytes == old(diskBytes) - size
    {
      Shut(disk, next, id);
      files := files - {id};
      diskFiles := Max(diskFiles - 1, 0);
      diskBytes := Max(diskBytes - size, 0);
      disk := disk - {id};
      assert disk.Keys == files;
    }

    /** `CreateDiskCacheFile`; it may fail. */
    method CreateFile(fails: bool) returns (r: Result<nat>)
      requires Valid()
      modifies this
      ensures fails ==> r == Err(Failed) && Valid() && next == old(next) && files == old(files)
      ensures !fails ==> r == Ok(old(next)) && Registered(old(next)) && next == old(next) + 1
      ensures disk == old(disk) && memory == old(memory) && honest == old(honest) && diskBytes == old(diskBytes)
      ensures diskHits == old(diskHits) && memoryHits == old(memoryHits)
    {
      if fails {
        return Err(Failed);
      }
      r := Ok(next);
      NotOpened(memory, next);
      files := files + {next};
      next := next + 1;
    }

    method RemoveFile(id: nat)
      requires Registered(id)
      modifies this
      ensures Valid() && next == old(next) && files == old(files) - {id}
      ensures disk == old(disk) && memory == old(memory) && honest == old(honest) && diskBytes == old(diskBytes)
      ensures diskHits == old(diskHits) && memoryHits == old(memoryHits)
    {
      NotOpened(disk, id);
      files := files - {id};
      assert files == disk.Keys;
    }
  }

  // ---------------------------------------------------------------------------
  // Reading
  // ---------------------------------------------------------------------------

  function Min(a: int, b: int): int {
    if a < b then a else b
  }

  /** The next at most `n` bytes from `pos` on. */
  function Chunk(data: seq<byte>, pos: nat, n: nat): seq<byte> {
    if pos >= |data| then [] else data[pos..Min(pos + n, |data|)]
  }

  function Target(whence: Whence, offset: int, pos: nat, size: nat): (t: int)
    ensures t - offset == (if whence == Start then 0 else if whence == Current then pos else size)
  {
    offset + match whence case Start => 0 case Current => pos case End => size
  }

  class MemoryStorage {
    const cache: Cache
    const id: nat
    const data: seq<byte>
    const size: int
    var pos: nat
    var closed: bool

    ghost predicate Valid()
      reads this, cache
    {
      && size == |data| && id < cache.next
      && (closed ==> id !in cache.memory) && (!closed ==> id in cache.memory && cache.memory[id] == |data|)
    }

    constructor (cache: Cache, id: nat, data: seq<byte>)
      requires id < cache.next && id in cache.memory && cache.memory[id] == |data|
      ensures Valid() && this.cache == cache && this.id == id && this.data == data && pos == 0 && !closed
    {
      this.cache, this.id, this.data, size, pos, closed := cache, id, data, |data|, 0, false;
    }

    method Read(n: nat) returns (r: Result<seq<byte>>)
      requires Valid()
      modifies this`pos
      ensures r == if closed then Err(Closed) else if old(pos) >= size then Err(EndOfFile)
          else Ok(Chunk(data, old(pos), n))
      ensures pos == old(pos) + if r.Ok? then |r.value| else 0
    {
      if closed {
        return Err(Closed);
      }
      if pos >= size {
        return Err(EndOfFile);
      }
      var end := if pos + n > size then size else pos + n;
      r := Ok(data[pos..end]);
      pos := end;
    }

    method Seek(offset: int, whence: Whence) returns (r: Result<nat>)
      requires Valid()
      modifies this`pos
      ensures r == if closed then Err(Closed) else if Target(whence, offset, old(pos), |data|) < 0 then Err(BadSeek)
                   else Ok(Target(whence, offset, old(pos), |data|))
      ensures pos == if r.Ok? then r.value else old(pos)
    {
      if closed {
        return Err(Closed);
      }
      var target := Target(whence, offset, pos, |data|);
      if target < 0 {
        return Err(BadSeek);
      }
      pos := target;
      r := Ok(target);
    }

    /** Closing again changes nothing. */
    method Close()
      requires Valid() && cache.Valid()
      modifies this`closed, cache
      ensures closed && Valid() && cache.Valid() && cache.next == old(cache.next)
      ensures cache.memory == old(cache.memory) - {id} && cache.disk == old(cache.disk)
      ensures cache.files == old(cache.files) && cache.honest == old(cache.honest)
      ensures old(closed) ==> unchanged(cache)
    {
      if !closed {
        closed := true;
        cache.DecrementMemory(id, size);
      } else {
        assert cache.memory - {id} == cache.memory;
      }
    }

    method Bytes() returns (r: Result<seq<byte>>)
      ensures r == if closed then Err(Closed) else Ok(data)
    {
      r := if closed then Err(Closed) else Ok(data);
    }
  }

  class DiskStorage {
    const cache: Cache
    const id: nat
    const content: seq<byte>
    const size: int
    var pos: nat
    var closed: bool

    ghost predicate Valid()
      reads this, cache
    {
      && size == |content| && id < cache.next
      && (closed ==> id !in cache.disk) && (!closed ==> id in cache.disk && cache.disk[id] == |content|)
    }

    constructor (cache: Cache, id: nat, content: seq<byte>)
      requires id < cache.next && id in cache.disk && cache.disk[id] == |content|
      ensures Valid() && this.cache == cache && this.id == id && this.content == content && pos == 0 && !closed
    {
      this.cache, this.id, this.content, size, pos, closed := cache, id, content, |content|, 0, false;
    }

    /** A file answers an empty read without looking at the position. */
    method Read(n: nat) returns (r: Result<seq<byte>>)
      requires Valid()
      modifies this`pos
      ensures r == if closed then Err(Closed) else if n > 0 && old(pos) >= size then Err(EndOfFile)
                   else Ok(Chunk(content, old(pos), n))
      ensures pos == old(pos) + if r.Ok? then |r.value| else 0
    {
      if closed {
        return Err(Closed);
      }
      if n == 0 {
        assert Chunk(content, pos, 0) == [];
        return Ok([]);
      }
      if pos >= size {
        return Err(EndOfFile);
      }
      var end := if pos + n > size then size else pos + n;
      r := Ok(content[pos..end]);
      pos := end;
    }

    method Seek(offset: int, whence: Whence) returns (r: Result<nat>)
      requires Valid()
      modifies this`pos
      ensures r == if closed then Err(Closed) else if Target(whence, offset, old(pos), |content|) < 0 then Err(BadSeek)
                   else Ok(Target(whence, offset, old(pos), |content|))
      ensures pos == if r.Ok? then r.value else old(pos)
    {
      if closed {
        return Err(Closed);
      }
      var target := Target(whence, offset, pos, |content|);
      if target < 0 {
        return Err(BadSeek);
      }
      pos := target;
      r := Ok(target);
    }

    /** Closing removes the file; closing again changes nothing. */
    method Close()
      requires Valid() && cache.Valid()
      modifies this`closed, cache
      ensures closed && Valid() && cache.Valid() && cache.next == old(cache.next)
      ensures cache.disk == old(cache.disk) - {id} && cache.memory == old(cache.memory)
      ensures id !in cache.files && cache.files == old(cache.files) - {id} && cache.honest == old(cache.honest)
      ensures old(closed) ==> unchanged(cache)
    {
      if !closed {
        closed := true;
        cache.DecrementDisk(id, size);
      } else {
        assert cache.disk - {id} == cache.disk;
        assert cache.files - {id} == cache.files;
      }
    }

    /** Reads the whole file wherever the position is, and puts the position back. */
    method Bytes() returns (r: Result<seq<byte>>)
      requires Valid()
      modifies this`pos
      ensures r == if closed then Err(Closed) else Ok(content)
      ensures pos == old(pos)
    {
      if closed {
        return Err(Closed);
      }
      var here := Seek(0, Current);
      var begin := Seek(0, Start);
      var data: seq<byte> := [];
      while |data| < size
        invariant pos == |data| <= size && data == content[..pos]
        modifies this`pos
      {
        var part := Read(size - |data|);
        data := data + part.value;
      }
      assert data == content;
      var back := Seek(here.value, Start);
      r := Ok(data);
    }
  }

  // ---------------------------------------------------------------------------
  // Creating
  // ---------------------------------------------------------------------------

  datatype Body = InMemory(m: MemoryStorage) | OnDisk(d: DiskStorage)

  method NewMemoryStorage(cache: Cache, data: seq<byte>) returns (m: MemoryStorage)
    requires cache.Valid()
    modifies cache
    ensures cache.Valid() && fresh(m) && m.cache == cache && m.Valid() && m.data == data && m.pos == 0 && !m.closed
    ensures m.id == old(cache.next) && cache.next == m.id + 1
    ensures cache.memory == old(cache.memory)[m.id := |data|] && cache.disk == old(cache.disk)
        && cache.honest == old(cache.honest)
    ensures cache.diskHits == old(cache.diskHits) && cache.memoryHits == old(cache.memoryHits)
  {
    var id := cache.IncrementMemory(|data|);
    m := new MemoryStorage(cache, id, data);
  }

  /** How a disk attempt goes: creating the file or writing it may fail. */
  datatype Disk = Works | CreateFails | WriteFails

  /** `newDiskStorage`: a failed attempt leaves no file and no count behind. */
  method NewDiskStorage(cache: Cache, data: seq<byte>, outcome: Disk) returns (r: Result<DiskStorage>)
    requires cache.Valid() && cache.Available(|data|)
    modifies cache
    ensures cache.Valid() && cache.memory == old(cache.memory) && cache.honest == old(cache.honest)
        && cache.next >= old(cache.next)
    ensures r.Ok? <==> outcome == Works
    ensures r.Err? ==> cache.disk == old(cache.disk) && cache.files == old(cache.files)
    ensures r.Ok? ==> var d := r.value;
              && fresh(d) && d.cache == cache && d.Valid() && d.content == data && d.pos == 0 && !d.closed
              && d.id == old(cache.next) && cache.disk == old(cache.disk)[d.id := |data|]
    ensures cache.diskHits == old(cache.diskHits) && cache.memoryHits == old(cache.memoryHits)
  {
    var file := cache.CreateFile(outcome == CreateFails);
    if file.Err? {
      return Err(Failed);
    }
    if outcome == WriteFails {
      cache.RemoveFile(file.value);
      return Err(Failed);
    }
    cache.IncrementDisk(file.value, |data|, |data|);
    var d := new DiskStorage(cache, file.value, data);
    r := Ok(d);
  }

  /** `CreateBodyStorage`: disk for large bodies that fit, memory otherwise and when the disk fails. */
  method CreateBodyStorage(cache: Cache, data: seq<byte>, outcome: Disk) returns (b: Body)
    requires cache.Valid()
    modifies cache
    ensures cache.Valid() && cache.honest == old(cache.honest)
    ensures b.OnDisk? <==>
        && cache.enabled && |data| >= cache.threshold
        && old(cache.diskBytes) + |data| <= cache.maxSize && outcome == Works
    ensures b.OnDisk? ==>
              && fresh(b.d) && b.d.cache == cache && b.d.Valid() && b.d.content == data && !b.d.closed
              && cache.disk == old(cache.disk)[b.d.id := |data|] && cache.memory == old(cache.memory)
              && b.d.id >= old(cache.next)
    ensures b.InMemory? ==>
              && fresh(b.m) && b.m.cache == cache && b.m.Valid() && b.m.data == data && !b.m.closed
              && cache.memory == old(cache.memory)[b.m.id := |data|] && cache.disk == old(cache.disk)
              && b.m.id >= old(cache.next)
    ensures cache.diskHits == old(cache.diskHits) && cache.memoryHits == old(cache.memoryHits)
  {
    if cache.enabled && |data| >= cache.threshold && cache.Available(|data|) {
      var d := NewDiskStorage(cache, data, outcome);
      if d.Ok? {
        return OnDisk(d.value);
      }
    }
    var m := NewMemoryStorage(cache, data);
    b := InMemory(m);
  }

  /** What is read from the client: the first `limit` bytes, unless reading fails. */
  datatype Source = Source(bytes: seq<byte>, fails: bool)

  /** `CreateBodyStorageFromReader`: the decision uses the announced length, the count the written one. */
  method CreateFromReader(cache: Cache, source: Source, contentLength: int, maxBytes: nat, outcome: Disk)
      returns (r: Result<Body>)
    requires cache.Valid()
    modifies cache
    ensures cache.Valid() && cache.next >= old(cache.next)
    ensures var direct := cache.enabled && contentLength > 0 && contentLength >= cache.threshold
        && old(cache.diskBytes) + contentLength <= cache.maxSize;
            && (r.Err? <==> source.fails || |source.bytes| > maxBytes || (direct && outcome != Works))
            && (r.Err? ==>
                cache.disk == old(cache.disk) && cache.memory == old(cache.memory) && cache.honest == old(cache.honest))
            && (direct && r.Ok? ==>
                r.value.OnDisk? && cache.honest == (old(cache.honest) && |source.bytes| <= contentLength))
            && (direct && r.Ok? ==> cache.diskBytes == old(cache.diskBytes) + |source.bytes|)
            && (!direct ==> cache.honest == old(cache.honest))
    ensures r.Ok? && r.value.OnDisk? ==> var d := r.value.d;
              && fresh(d) && d.cache == cache && d.Valid() && d.content == source.bytes && !d.closed
              && cache.disk == old(cache.disk)[d.id := |source.bytes|] && cache.diskHits == old(cache.diskHits) + 1
              && cache.memory == old(cache.memory) && d.id >= old(cache.next)
    ensures r.Ok? && r.value.InMemory? ==> var m := r.value.m;
              && fresh(m) && m.cache == cache && m.Valid() && m.data == source.bytes && !m.closed
              && cache.memory == old(cache.memory)[m.id := |source.bytes|]
              && cache.memoryHits == old(cache.memoryHits) + 1
              && cache.disk == old(cache.disk) && m.id >= old(cache.next)
  {
    if cache.enabled && contentLength > 0 && contentLength >= cache.threshold && cache.Available(contentLength) {
      var d := NewDiskStorageFromReader(cache, source, contentLength, maxBytes, outcome);
      if d.Err? {
        return Err(d.error);
      }
      cache.diskHits := cache.diskHits + 1;
      return Ok(OnDisk(d.value));
    }
    if source.fails {
      return Err(Failed);
    }
    if |source.bytes| > maxBytes {
      return Err(TooLarge);
    }
    // Bodies read into memory first go to disk only through their true length.
    var b := CreateBodyStorage(cache, source.bytes, outcome);
    if b.OnDisk? {
      cache.diskHits := cache.diskHits + 1;
    } else {
      cache.memoryHits := cache.memoryHits + 1;
    }
    r := Ok(b);
  }

  /** `newDiskStorageFromReader`: too much input leaves no file behind. */
  method NewDiskStorageFromReader(cache: Cache, source: Source, contentLength: int, maxBytes: nat, outcome: Disk)
    returns (r: Result<DiskStorage>)
    requires cache.Valid() && cache.Available(contentLength)
    modifies cache
    ensures cache.Valid() && cache.memory == old(cache.memory) && cache.next >= old(cache.next)
    ensures r.Ok? <==> outcome == Works && !source.fails && |source.bytes| <= maxBytes
    ensures r.Err? ==>
        cache.disk == old(cache.disk) && cache.files == old(cache.files) && cache.honest == old(cache.honest)
    ensures r.Ok? ==> var d := r.value;
              && fresh(d) && d.cache == cache && d.Valid() && d.content == source.bytes && d.pos == 0 && !d.closed
              && d.id == old(cache.next) && cache.disk == old(cache.disk)[d.id := |source.bytes|]
              && cache.honest == (old(cache.honest) && |source.bytes| <= contentLength)
              && cache.diskBytes == old(cache.diskBytes) + |source.bytes|
    ensures cache.diskHits == old(cache.diskHits) && cache.memoryHits == old(cache.memoryHits)
  {
    var file := cache.CreateFile(outcome == CreateFails);
    if file.Err? {
      return Err(Failed);
    }
    if source.fails || outcome == WriteFails {
      cache.RemoveFile(file.value);
      return Err(Failed);
    }
    // At most one byte more than allowed is copied.
    var written := source.bytes[..Min(|source.bytes|, maxBytes + 1)];
    if |written| > maxBytes {
      cache.RemoveFile(file.value);
      return Err(TooLarge);
    }
    assert written == source.bytes;
    cache.IncrementDisk(file.value, |written|, contentLength);
    var d := new DiskStorage(cache, file.value, written);
    r := Ok(d);
  }

  // ---------------------------------------------------------------------------
  // Whole runs
  // ---------------------------------------------------------------------------

  datatype Event =
    | Create(data: seq<byte>, outcome: Disk)
    | FromReader(source: Source, contentLength: int, maxBytes: nat, outcome: Disk)
    | CloseAt(i: nat)

  function Object(b: Body): object {
    match b case InMemory(m) => m case OnDisk(d) => d
  }

  function Identity(b: Body): nat {
    match b case InMemory(m) => m.id case OnDisk(d) => d.id
  }

  ghost predicate Sound(b: Body, cache: Cache)
    reads Object(b), cache
  {
    match b
    case InMemory(m) => m.cache == cache && m.Valid()
    case OnDisk(d) => d.cache == cache && d.Valid()
  }

  /** Where each storage is; so no two share an identity, and every counted one is there. */
  ghost predicate Located(bodies: seq<Body>, where: map<nat, nat>, memory: map<nat, nat>, disk: map<nat, nat>) {
    && (forall i :: 0 <= i < |bodies| ==> Identity(bodies[i]) in where && where[Identity(bodies[i])] == i)
    && (forall id :: id in memory ==>
          id in where && where[id] < |bodies| && bodies[where[id]].InMemory? && Identity(bodies[where[id]]) == id)
    && (forall id :: id in disk ==>
          id in where && where[id] < |bodies| && bodies[where[id]].OnDisk? && Identity(bodies[where[id]]) == id)
  }

  method CloseBody(b: Body, cache: Cache)
    requires Sound(b, cache) && cache.Valid()
    modifies Object(b), cache
    ensures Sound(b, cache) && cache.Valid() && cache.next == old(cache.next) && cache.honest == old(cache.honest)
    ensures cache.memory == (if b.InMemory? then old(cache.memory) - {b.m.id} else old(cache.memory))
    ensures cache.disk == (if b.OnDisk? then old(cache.disk) - {b.d.id} else old(cache.disk))
  {
    match b
    case InMemory(m) => m.Close();
    case OnDisk(d) => d.Close();
  }

  lemma LocatedNext(bodies: seq<Body>, b: Body, where: map<nat, nat>, memory: map<nat, nat>, disk: map<nat, nat>,
      size: nat)
    requires Located(bodies, where, memory, disk)
    requires forall i :: 0 <= i < |bodies| ==> Identity(bodies[i]) != Identity(b)
    ensures var where' := where[Identity(b) := |bodies|];
            && (b.InMemory? ==> Located(bodies + [b], where', memory[Identity(b) := size], disk))
            && (b.OnDisk? ==> Located(bodies + [b], where', memory, disk[Identity(b) := size]))
  {
    var all := bodies + [b];
    assert all[|bodies|] == b;
    assert forall i :: 0 <= i < |bodies| ==> all[i] == bodies[i];
  }

  /** A body that is accepted and longer than the announced length that decides about the disk. */
  predicate Understates(source: Source, contentLength: int, maxBytes: nat, threshold: int) {
    contentLength > 0 && contentLength >= threshold && !source.fails && contentLength < |source.bytes| <= maxBytes
  }

  predicate UnderstatingEvent(event: Event, threshold: int) {
    event.FromReader? && Understates(event.source, event.contentLength, event.maxBytes, threshold)
  }

  /** No event understates; a body that announces no length is admitted by its true one. */
  predicate Announced(events: seq<Event>, threshold: int) {
    forall i :: 0 <= i < |events| ==> !UnderstatingEvent(events[i], threshold)
  }

  lemma AnnouncedNext(events: seq<Event>, k: nat, threshold: int)
    requires k < |events|
    ensures Announced(events[..k + 1], threshold) <==>
              Announced(events[..k], threshold) && !UnderstatingEvent(events[k], threshold)
  {
    if Announced(events[..k + 1], threshold) {
      assert forall i :: 0 <= i < k ==> events[..k][i] == events[..k + 1][i];
      assert events[..k + 1][k] == events[k];
    }
  }

  method Add(cache: Cache, bodies: seq<Body>, ghost where: map<nat, nat>, data: seq<byte>, outcome: Disk)
      returns (b: Body)
    requires cache.Valid() && Located(bodies, where, cache.memory, cache.disk)
    requires forall i :: 0 <= i < |bodies| ==> Sound(bodies[i], cache) && Object(bodies[i]) != cache
    modifies cache
    ensures cache.Valid() && cache.honest == old(cache.honest) && fresh(Object(b)) && Sound(b, cache)
    ensures Located(bodies + [b], where[Identity(b) := |bodies|], cache.memory, cache.disk)
    ensures forall i :: 0 <= i < |bodies| ==> Sound(bodies[i], cache)
  {
    hide Located;
    ghost var memory, disk := cache.memory, cache.disk;
    b := CreateBodyStorage(cache, data, outcome);
    LocatedNext(bodies, b, where, memory, disk, |data|);
  }

  method AddFromReader(cache: Cache, bodies: seq<Body>, ghost where: map<nat, nat>,
                       source: Source, contentLength: int, maxBytes: nat, outcome: Disk) returns (r: Result<Body>)
    requires cache.Valid() && Located(bodies, where, cache.memory, cache.disk)
    requires forall i :: 0 <= i < |bodies| ==> Sound(bodies[i], cache) && Object(bodies[i]) != cache
    modifies cache
    ensures cache.Valid()
    ensures old(cache.honest) && !Understates(source, contentLength, maxBytes, cache.threshold) ==> cache.honest
    ensures r.Ok? ==>
              && fresh(Object(r.value)) && Sound(r.value, cache)
              && Located(bodies + [r.value], where[Identity(r.value) := |bodies|], cache.memory, cache.disk)
    ensures r.Err? ==> Located(bodies, where, cache.memory, cache.disk)
    ensures forall i :: 0 <= i < |bodies| ==> Sound(bodies[i], cache)
  {
    hide Located;
    ghost var memory, disk := cache.memory, cache.disk;
    r := CreateFromReader(cache, source, contentLength, maxBytes, outcome);
    if r.Ok? {
      LocatedNext(bodies, r.value, where, memory, disk, |source.bytes|);
    }
  }

  method CloseOne(cache: Cache, bodies: seq<Body>, ghost where: map<nat, nat>, k: nat)
    requires cache.Valid() && Located(bodies, where, cache.memory, cache.disk) && k < |bodies|
    requires forall i :: 0 <= i < |bodies| ==> Sound(bodies[i], cache) && Object(bodies[i]) != cache
    modifies cache, Object(bodies[k])
    ensures cache.Valid() && cache.honest == old(cache.honest) && Located(bodies, where, cache.memory, cache.disk)
    ensures forall i :: 0 <= i < |bodies| ==> Sound(bodies[i], cache)
  {
    CloseBody(bodies[k], cache);
  }

  /**
   Any sequence of creations and closes, repeated closes included: the counters always
   count exactly the open storages, and with honest lengths the disk limit holds.
   */
  method Session(events: seq<Event>, enabled: bool, threshold: int, maxSize: int)
    returns (cache: Cache, bodies: seq<Body>, ghost where: map<nat, nat>)
    ensures cache.Valid() && Located(bodies, where, cache.memory, cache.disk) && cache.maxSize == maxSize
    ensures forall i :: 0 <= i < |bodies| ==> Sound(bodies[i], cache)
    ensures Announced(events, threshold) ==> cache.diskBytes <= Max(maxSize, 0)
  {
    cache := new Cache(enabled, threshold, maxSize);
    bodies, where := [], map[];
    var k := 0;
    while k < |events|
      invariant 0 <= k <= |events| && cache.Valid() && fresh(cache)
      invariant cache.maxSize == maxSize && cache.threshold == threshold
      invariant Located(bodies, where, cache.memory, cache.disk)
      invariant forall i :: 0 <= i < |bodies| ==>
                  Sound(bodies[i], cache) && fresh(Object(bodies[i])) && Object(bodies[i]) != cache
      invariant Announced(events[..k], threshold) ==> cache.honest
    {
      hide Located, Announced, Understates;
      AnnouncedNext(events, k, threshold);
      match events[k] {
        case Create(data, outcome) =>
          var b := Add(cache, bodies, where, data, outcome);
          where := where[Identity(b) := |bodies|];
          bodies := bodies + [b];
        case FromReader(source, contentLength, maxBytes, outcome) =>
          var r := AddFromReader(cache, bodies, where, source, contentLength, maxBytes, outcome);
          if r.Ok? {
            where := where[Identity(r.value) := |bodies|];
            bodies := bodies + [r.value];
          }
        case CloseAt(i) =>
          if i < |bodies| {
            CloseOne(cache, bodies, where, i);
          }
      }
      k := k + 1;
    }
    assert events[..k] == events;
  }

  /** Whatever smaller length is announced and admitted, the whole body is written. */
  method UnderstatedLength(body: seq<byte>, announced: nat, maxSize: nat) returns (cache: Cache)
    requires 1 <= announced <= maxSize
    ensures cache.Valid() && cache.maxSize == maxSize && cache.diskBytes == |body|
  {
    cache := new Cache(true, 1, maxSize);
    var r := CreateFromReader(cache, Source(body, false), announced, |body|, Works);
  }
}
