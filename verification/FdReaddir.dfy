/**
 fd_readdir (fdReaddirFn, imports/wasi_snapshot_preview1/fs.go) on top of the directory cache,
 and the loop of a guest that lists a whole directory with it.
 */
module FdReaddir {
  import opened Bytes
  import opened DirentCache
  import opened GuestMemory
  import opened Readdir

  /** The entries that a call considers. */
  function Considered(listing: seq<Dirent>, cookie: nat, bufLen: nat): seq<Dirent>
    requires cookie <= |listing|
  {
    Slice(listing, cookie, ReadCount(bufLen))
  }

  /** How many bytes of the guest's buffer a call claims. */
  function BufToWrite(ds: seq<Dirent>, bufLen: nat): nat {
    TotalLen(ds[..Fits(ds, bufLen)]) + TruncatedLen(ds, bufLen)
  }

  /** How fdReaddirFn ends. */
  datatype Outcome = Return(errno: Errno) | Panicked

  /** The arguments are uint32, and memory has at most 65536 pages. */
  predicate Uint32s(length: nat, buf: nat, bufLen: nat, result: nat) {
    length <= TWO_TO_THE_32 && buf < TWO_TO_THE_32 && bufLen < TWO_TO_THE_32 && result < TWO_TO_THE_32
  }

  /** A return before there is an answer. */
  predicate Early(r: Outcome) {
    r == Return(EINVAL) || r == Return(ENOENT) || r == Return(EIO)
  }

  /** `bs` written at `off`, if there is anything to write. */
  ghost function Put(s: seq<byte>, off: nat, bs: seq<byte>): (r: seq<byte>)
    ensures |r| == |s|
  {
    if bs != [] && off + |bs| <= |s| then Overwritten(s, off, bs) else s
  }

  /** `a` has been written at `buf`, if there was anything to write, and then `b` at `result`. */
  ghost predicate Wrote(before: seq<byte>, after: seq<byte>, buf: nat, a: seq<byte>, result: nat, b: seq<byte>) {
    (a != [] ==> buf + |a| <= |before|) && Holds(after, Put(before, buf, a), result, b)
  }

  /** Memory after a successful call: the entries in the buffer, then bufused where it was asked for. */
  ghost predicate Answered(before: seq<byte>, after: seq<byte>, ds: seq<Dirent>, next: nat,
                           buf: nat, bufLen: nat, result: nat) {
    Wrote(before, after, buf, Written(ds, next, bufLen), result, ToLE(Bufused(ds, bufLen), U32_SIZE))
  }

  /** What becomes of the entries: a panic if the bytes claimed end at 2^32, a fault if they lie outside
      memory, and otherwise they are written. */
  ghost predicate EntriesOut(before: seq<byte>, after: seq<byte>, ds: seq<Dirent>, next: nat,
                             buf: nat, bufLen: nat, r: Outcome) {
    var claimed := BufToWrite(ds, bufLen);
    if EndWraps(|before|, buf, claimed) then r == Panicked && after == before
    else if claimed > 0 && buf + claimed > |before| then r == Return(EFAULT) && after == before
    else r == Return(Ok) && after == Put(before, buf, Written(ds, next, bufLen))
  }

  /** What becomes of the answer: the same, and if only the result lies outside memory, a fault with the
      entries written but not bufused. */
  ghost predicate AnswerOut(before: seq<byte>, after: seq<byte>, ds: seq<Dirent>, next: nat,
                            buf: nat, bufLen: nat, result: nat, r: Outcome) {
    var claimed := BufToWrite(ds, bufLen);
    if EndWraps(|before|, buf, claimed) || (claimed > 0 && buf + claimed > |before|) then
      EntriesOut(before, after, ds, next, buf, bufLen, r)
    else if result + U32_SIZE > |before| then
      r == Return(EFAULT) && after == Put(before, buf, Written(ds, next, bufLen))
    else
      r == Return(Ok) && Answered(before, after, ds, next, buf, bufLen, result)
  }

  /** fdReaddirFn, once the cache of the descriptor has been found. */
  method FdReaddir(cache: Cache, mem: array<byte>, buf: nat, bufLen: nat, cookie: nat, result: nat)
      returns (r: Outcome)
    requires cache.Valid() && AllEncodable(cache.Listing()) && Uint32s(mem.Length, buf, bufLen, result)
    modifies cache, cache.f, mem
    ensures cache.Valid()
    ensures r == Return(EINVAL) <==> bufLen < DIRENT_SIZE
    ensures r == Return(EINVAL) ==> cache.Window() == old(cache.Window())
    ensures r == Return(ENOENT) <==>
            bufLen >= DIRENT_SIZE && OutOfWindow(old(cache.Window()), cookie, ReadCount(bufLen))
    ensures Early(r) ==> mem[..] == old(mem[..])
    ensures r == Return(EIO) ==>
              Retryable(cache.Listing(), old(cache.Window()), cache.Window(), cookie, ReadCount(bufLen))
    ensures !Early(r) ==> cookie <= |cache.Listing()|
    ensures !Early(r) ==>
              cache.Window() == AfterRead(cache.Listing(), old(cache.Window()), cookie, ReadCount(bufLen))
    ensures !Early(r) ==>
              AnswerOut(old(mem[..]), mem[..], Considered(cache.Listing(), cookie, bufLen), cookie + 1,
                        buf, bufLen, result, r)
  {
    if bufLen < DIRENT_SIZE {
      return Return(EINVAL);
    }
    var maxDirEntries := bufLen / DIRENT_SIZE + 1;
    maxDirEntries := maxDirEntries + 1;
    ReadCountRange(bufLen);
    ghost var listing := cache.Listing();
    var dirents, errno := ReadEntries(cache, cookie, maxDirEntries);
    if errno != Ok {
      return Return(errno);
    }
    assert dirents == Considered(listing, cookie, bufLen);
    r := WriteAnswer(dirents, cookie + 1, mem, buf, bufLen, result);
  }

  lemma ReadCountRange(bufLen: nat)
    requires DIRENT_SIZE <= bufLen < TWO_TO_THE_32
    ensures 3 <= ReadCount(bufLen) < TWO_TO_THE_32
  {
  }

  /** The cache's answer for a count that fd_readdir asks for. */
  method ReadEntries(cache: Cache, cookie: nat, n: nat) returns (dirents: seq<Dirent>, errno: Errno)
    requires cache.Valid() && AllEncodable(cache.Listing()) && 3 <= n < TWO_TO_THE_32
    modifies cache, cache.f
    ensures cache.Valid()
    ensures errno in {Ok, ENOENT, EIO}
    ensures errno == ENOENT <==> OutOfWindow(old(cache.Window()), cookie, n)
    ensures errno == ENOENT ==> cache.Window() == old(cache.Window())
    ensures errno == EIO ==> Retryable(cache.Listing(), old(cache.Window()), cache.Window(), cookie, n)
    ensures errno == Ok ==> cache.Window() == AfterRead(cache.Listing(), old(cache.Window()), cookie, n)
    ensures errno == Ok ==>
              cookie <= |cache.Listing()| && dirents == Slice(cache.Listing(), cookie, n) && AllEncodable(dirents)
  {
    dirents, errno := cache.Read(cookie, n);
  }

  /** What fdReaddirFn does with the entries that it has read. */
  method WriteAnswer(dirents: seq<Dirent>, dNext: nat, mem: array<byte>, buf: nat, bufLen: nat, result: nat)
      returns (r: Outcome)
    requires AllEncodable(dirents) && Uint32s(mem.Length, buf, bufLen, result)
    modifies mem
    ensures !Early(r)
    ensures AnswerOut(old(mem[..]), mem[..], dirents, dNext, buf, bufLen, result, r)
  {
    var bufused;
    r, bufused := WriteEntries(dirents, dNext, mem, buf, bufLen);
    if r != Return(Ok) {
      return;
    }
    if result + U32_SIZE > mem.Length {
      return Return(EFAULT);
    }
    WriteAt(mem, result, ToLE(bufused, U32_SIZE));
  }

  method WriteEntries(dirents: seq<Dirent>, dNext: nat, mem: array<byte>, buf: nat, bufLen: nat)
      returns (r: Outcome, bufused: nat)
    requires AllEncodable(dirents) && Uint32s(mem.Length, buf, bufLen, 0)
    modifies mem
    ensures EntriesOut(old(mem[..]), mem[..], dirents, dNext, buf, bufLen, r)
    ensures r == Return(Ok) ==>
              && bufused == Bufused(dirents, bufLen)
              && (Written(dirents, dNext, bufLen) != [] ==> buf + |Written(dirents, dNext, bufLen)| <= mem.Length)
  {
    var bufToWrite, direntCount, truncatedLen := MaxDirents(dirents, bufLen);
    bufused := bufToWrite;
    if truncatedLen > 0 {
      bufused := bufLen;
    }
    if bufToWrite > 0 {
      ReadExact(mem.Length, buf, bufToWrite);
      var view := Read(mem.Length, buf, bufToWrite);
      if !view.View? {
        return if view.OutOfRange? then Return(EFAULT) else Panicked, bufused;
      }
      WriteDirents(mem, view.lo, dirents, dNext, direntCount, truncatedLen, bufLen);
      OverwrittenNothing(old(mem[..]), buf);
    }
    r := Return(Ok);
  }

  /** What a write leaves in a region that starts with it. */
  lemma PutReads(s: seq<byte>, buf: nat, a: seq<byte>, used: nat)
    requires |a| <= used && buf + used <= |s|
    ensures Put(s, buf, a)[buf..buf + used] == a + s[buf + |a|..buf + used]
  {
    if a == [] {
      assert a + s[buf..buf + used] == s[buf..buf + used];
    } else {
      var m := Put(s, buf, a);
      InsideWritten(s, buf, a);
      OutsideWritten(s, buf, a, buf + |a|, buf + used);
      assert m[buf..buf + used] == m[buf..buf + |a|] + m[buf + |a|..buf + used];
    }
  }

  /** Two writes apart from each other: the bytes of each, and what the first left behind it. */
  lemma TwoWrites(before: seq<byte>, after: seq<byte>, buf: nat, a: seq<byte>, used: nat, result: nat, b: seq<byte>)
    requires Wrote(before, after, buf, a, result, b) && |a| <= used && buf + used <= |before|
    requires result + |b| <= buf || buf + used <= result
    ensures |after| == |before|
    ensures after[result..result + |b|] == b
    ensures after[buf..buf + used] == a + before[buf + |a|..buf + used]
  {
    var mid := Put(before, buf, a);
    InsideWritten(mid, result, b);
    OutsideWritten(mid, result, b, buf, buf + used);
    PutReads(before, buf, a, used);
  }

  /** bufused, and the complete entries of `ds`. */
  predicate TookFrom(ds: seq<Dirent>, next: nat, bufLen: nat, used: nat, got: seq<Entry>) {
    used == Bufused(ds, bufLen) && got == Entries(ds[..Fits(ds, bufLen)], next)
  }

  /** What the guest finds in its memory after a successful call. */
  lemma AnswerReadsBack(before: seq<byte>, after: seq<byte>, ds: seq<Dirent>, next: nat, buf: nat, bufLen: nat,
                        result: nat)
    requires Answered(before, after, ds, next, buf, bufLen, result)
    requires AllEncodable(ds) && next + |ds| <= TWO_TO_THE_64 && bufLen < TWO_TO_THE_32
    requires Apart(|before|, buf, bufLen, result)
    ensures |after| == |before|
    ensures var used := FromLE(after[result..result + U32_SIZE]);
            && used <= bufLen
            && TookFrom(ds, next, bufLen, used, Parse(after[buf..buf + used]))
  {
    var written, used := Written(ds, next, bufLen), Bufused(ds, bufLen);
    var es := Entries(ds[..Fits(ds, bufLen)], next);
    BufusedFits(ds, next, bufLen);
    assert Parse(written + before[buf + |written|..buf + used]) == es by {
      BufferRoundTrip(ds, next, bufLen, before[buf + |written|..buf + used]);
    }
    ReadsOut(before, after, buf, written, used, result, es);
  }

  lemma ReadsOut(before: seq<byte>, after: seq<byte>, buf: nat, written: seq<byte>, used: nat, result: nat,
                 es: seq<Entry>)
    requires Wrote(before, after, buf, written, result, ToLE(used, U32_SIZE))
    requires |written| <= used < TWO_TO_THE_32 && buf + used <= |before| &&
             (result + U32_SIZE <= buf || buf + used <= result)
    requires Parse(written + before[buf + |written|..buf + used]) == es
    ensures |after| == |before| && FromLE(after[result..result + U32_SIZE]) == used &&
            Parse(after[buf..buf + used]) == es
  {
    TwoWrites(before, after, buf, written, used, result, ToLE(used, U32_SIZE));
    UsedReadsBack(used);
  }

  lemma UsedReadsBack(used: nat)
    requires used < TWO_TO_THE_32
    ensures FromLE(ToLE(used, U32_SIZE)) == used
  {
    Pow256Values();
    LERoundTrip(used, U32_SIZE);
  }

  /** The guest's regions lie in memory and apart. */
  predicate Apart(length: nat, buf: nat, bufLen: nat, result: nat) {
    && buf + bufLen <= length && result + U32_SIZE <= length
    && (result + U32_SIZE <= buf || buf + bufLen <= result)
  }

  /** The buffer takes every entry of the listing. */
  predicate TakesEvery(listing: seq<Dirent>, bufLen: nat) {
    bufLen >= DIRENT_SIZE && forall i :: 0 <= i < |listing| ==> EntryLen(listing[i]) <= bufLen
  }

  /** Where the cookie can go on from. */
  predicate Resumable(w: Window, cookie: nat) {
    cookie == 0 || (w.Cached? && w.start <= cookie <= w.end)
  }

  /** A call that fills the buffer has taken at least one entry; a call that does not has taken the rest. */
  lemma CallProgress(listing: seq<Dirent>, w: Window, cookie: nat, bufLen: nat)
    requires 2 <= |listing| && cookie <= |listing| && TakesEvery(listing, bufLen) && bufLen < TWO_TO_THE_32
    requires !OutOfWindow(w, cookie, ReadCount(bufLen))
    ensures var ds := Considered(listing, cookie, bufLen);
            var k := Fits(ds, bufLen);
            && ds[..k] == listing[cookie..cookie + k]
            && Bufused(ds, bufLen) <= bufLen
            && (Bufused(ds, bufLen) < bufLen ==> cookie + k == |listing|)
            && (Bufused(ds, bufLen) == bufLen ==> k > 0)
            && (Resumable(w, cookie) ==> Resumable(AfterRead(listing, w, cookie, ReadCount(bufLen)), cookie + k))
  {
    var ds := Considered(listing, cookie, bufLen);
    var n := ReadCount(bufLen);
    SlicePrefix(listing, cookie, n, Fits(ds, bufLen));
    BufusedFits(ds, 0, bufLen);
    if Resumable(w, cookie) {
      StaysResumable(listing, w, cookie, n, Fits(ds, bufLen));
    }
    if Bufused(ds, bufLen) < bufLen {
      ShortMeansEnd(listing, cookie, bufLen);
    } else {
      SliceTakesEvery(listing, cookie, n, bufLen);
      FullTakesOne(ds, bufLen);
    }
  }

  lemma SliceTakesEvery(listing: seq<Dirent>, pos: nat, n: nat, bufLen: nat)
    requires pos <= |listing| && TakesEvery(listing, bufLen)
    ensures TakesEvery(Slice(listing, pos, n), bufLen)
  {
    var ds := Slice(listing, pos, n);
    assert forall i :: 0 <= i < |ds| ==> ds[i] == listing[pos + i];
  }

  /** After a read the window reaches from the cookie to the end of what has been returned. */
  lemma StaysResumable(listing: seq<Dirent>, w: Window, cookie: nat, n: nat, k: nat)
    requires 2 <= |listing| && 3 <= n < TWO_TO_THE_32 && cookie + k <= |listing| && k <= n
    requires Resumable(w, cookie) && !OutOfWindow(w, cookie, n)
    ensures Resumable(AfterRead(listing, w, cookie, n), cookie + k)
  {
  }

  lemma SlicePrefix(listing: seq<Dirent>, pos: nat, n: nat, k: nat)
    requires pos <= |listing| && k <= |Slice(listing, pos, n)|
    ensures k <= n && pos + k <= |listing| && Slice(listing, pos, n)[..k] == listing[pos..pos + k]
  {
  }

  lemma FullTakesOne(ds: seq<Dirent>, bufLen: nat)
    requires TakesEvery(ds, bufLen) && Bufused(ds, bufLen) == bufLen
    ensures Fits(ds, bufLen) > 0
  {
    FitsIsLongest(ds, bufLen);
    assert ds[..0] == [];
  }

  /** The entries `got` from `cookie` on, all the rest unless `full`, after which `w` allows to go on. */
  predicate Fetched(listing: seq<Dirent>, cookie: nat, got: seq<Entry>, full: bool, w: Window) {
    && cookie + |got| <= |listing|
    && got == Entries(listing[cookie..cookie + |got|], cookie + 1)
    && Resumable(w, cookie + |got|)
    && (if full then |got| > 0 else cookie + |got| == |listing|)
  }

  lemma CallFetches(listing: seq<Dirent>, w: Window, cookie: nat, bufLen: nat, used: nat, got: seq<Entry>)
    requires 2 <= |listing| < TWO_TO_THE_32 && cookie <= |listing|
    requires TakesEvery(listing, bufLen) && bufLen < TWO_TO_THE_32
    requires Resumable(w, cookie) && !OutOfWindow(w, cookie, ReadCount(bufLen))
    requires TookFrom(Considered(listing, cookie, bufLen), cookie + 1, bufLen, used, got)
    ensures Fetched(listing, cookie, got, used == bufLen, AfterRead(listing, w, cookie, ReadCount(bufLen)))
  {
    CallProgress(listing, w, cookie, bufLen);
  }

  lemma ConsideredEncodable(listing: seq<Dirent>, cookie: nat, bufLen: nat)
    requires AllEncodable(listing) && cookie <= |listing|
    ensures AllEncodable(Considered(listing, cookie, bufLen))
    ensures cookie + |Considered(listing, cookie, bufLen)| <= |listing|
    ensures BufToWrite(Considered(listing, cookie, bufLen), bufLen) <= bufLen
  {
    FitsIsLongest(Considered(listing, cookie, bufLen), bufLen);
  }

  /** The guest reads bufused and then the entries. */
  method Take(mem: array<byte>, buf: nat, bufLen: nat, result: nat, ghost before: seq<byte>, ghost ds: seq<Dirent>,
              ghost next: nat)
      returns (used: nat, got: seq<Entry>)
    requires Answered(before, mem[..], ds, next, buf, bufLen, result)
    requires AllEncodable(ds) && next + |ds| <= TWO_TO_THE_64 && bufLen < TWO_TO_THE_32
    requires |before| == mem.Length && Apart(mem.Length, buf, bufLen, result)
    ensures TookFrom(ds, next, bufLen, used, got)
  {
    var m := mem[..];
    AnswerReadsBack(before, m, ds, next, buf, bufLen, result);
    used := FromLE(m[result..result + U32_SIZE]);
    got := Parse(m[buf..buf + used]);
  }

  /** A call from a cookie that can go on panics just when the bytes it claims fill a buffer that ends
      at 2^32. */
  lemma CallOut(before: seq<byte>, after: seq<byte>, ds: seq<Dirent>, next: nat,
                buf: nat, bufLen: nat, result: nat, r: Outcome)
    requires AnswerOut(before, after, ds, next, buf, bufLen, result, r)
    requires BufToWrite(ds, bufLen) <= bufLen && Apart(|before|, buf, bufLen, result)
    ensures r == if EndWraps(|before|, buf, bufLen) && BufToWrite(ds, bufLen) == bufLen then Panicked else Return(Ok)
    ensures r == Return(Ok) ==> Answered(before, after, ds, next, buf, bufLen, result)
  {
  }

  /** Such a call, and what the guest then takes out of its memory. */
  method Call(cache: Cache, mem: array<byte>, buf: nat, bufLen: nat, result: nat, cookie: nat)
      returns (used: nat, got: seq<Entry>, r: Outcome)
    requires cache.Valid() && AllEncodable(cache.Listing())
    requires DIRENT_SIZE <= bufLen && Uint32s(mem.Length, buf, bufLen, result)
    requires Apart(mem.Length, buf, bufLen, result)
    requires cookie <= |cache.Listing()| && Resumable(cache.Window(), cookie)
    modifies cache, cache.f, mem
    ensures cache.Valid()
    ensures r == Return(EIO) || r == ExpectedOutcome(cache.Listing(), cookie, mem.Length, buf, bufLen)
    ensures r == Return(Ok) ==>
              cache.Window() == AfterRead(cache.Listing(), old(cache.Window()), cookie, ReadCount(bufLen))
    ensures r == Return(Ok) ==> TookFrom(Considered(cache.Listing(), cookie, bufLen), cookie + 1, bufLen, used, got)
  {
    ghost var ds := Considered(cache.Listing(), cookie, bufLen);
    ConsideredEncodable(cache.Listing(), cookie, bufLen);
    assert !OutOfWindow(cache.Window(), cookie, ReadCount(bufLen));
    r := FdReaddir(cache, mem, buf, bufLen, cookie, result);
    used, got := 0, [];
    if r != Return(EIO) {
      CallOut(old(mem[..]), mem[..], ds, cookie + 1, buf, bufLen, result, r);
    }
    if r == Return(Ok) {
      used, got := Take(mem, buf, bufLen, result, old(mem[..]), ds, cookie + 1);
    }
  }

  /** How a call ends unless the directory cannot be read. */
  ghost function ExpectedOutcome(listing: seq<Dirent>, cookie: nat, length: nat, buf: nat, bufLen: nat): Outcome
    requires cookie <= |listing|
  {
    if EndWraps(length, buf, bufLen) && BufToWrite(Considered(listing, cookie, bufLen), bufLen) == bufLen
    then Panicked else Return(Ok)
  }

  /** From `cookie` on, some call fills the buffer to its last byte. */
  predicate Fills(listing: seq<Dirent>, cookie: nat, bufLen: nat)
    requires cookie <= |listing|
    decreases |listing| - cookie
  {
    var ds := Considered(listing, cookie, bufLen);
    var k := Fits(ds, bufLen);
    || BufToWrite(ds, bufLen) == bufLen
    || (Bufused(ds, bufLen) == bufLen && k > 0 && Fills(listing, cookie + k, bufLen))
  }

  /** Listing from `cookie` on comes to a call that panics. */
  ghost predicate Doomed(listing: seq<Dirent>, cookie: nat, length: nat, buf: nat, bufLen: nat) {
    cookie <= |listing| && EndWraps(length, buf, bufLen) && Fills(listing, cookie, bufLen)
  }

  /** `dooms` tells the cookies from which that is so. */
  ghost predicate Tells(dooms: nat -> bool, listing: seq<Dirent>, length: nat, buf: nat, bufLen: nat) {
    forall c: nat {:trigger Doomed(listing, c, length, buf, bufLen)} ::
      dooms(c) == Doomed(listing, c, length, buf, bufLen)
  }

  lemma CallDoomed(listing: seq<Dirent>, cookie: nat, length: nat, buf: nat, bufLen: nat, dooms: nat -> bool)
    requires Tells(dooms, listing, length, buf, bufLen)
    requires cookie <= |listing| && ExpectedOutcome(listing, cookie, length, buf, bufLen) == Panicked
    ensures dooms(cookie)
  {
    assert Doomed(listing, cookie, length, buf, bufLen);
  }

  lemma DoomedNext(listing: seq<Dirent>, cookie: nat, length: nat, buf: nat, bufLen: nat, used: nat, got: seq<Entry>,
                   dooms: nat -> bool)
    requires cookie <= |listing| && Tells(dooms, listing, length, buf, bufLen)
    requires TookFrom(Considered(listing, cookie, bufLen), cookie + 1, bufLen, used, got)
    requires used == bufLen ==> |got| > 0
    requires ExpectedOutcome(listing, cookie, length, buf, bufLen) == Return(Ok)
    ensures dooms(cookie) <==> used == bufLen && dooms(cookie + |got|)
  {
    assert Doomed(listing, cookie, length, buf, bufLen) <==>
           used == bufLen && Doomed(listing, cookie + |got|, length, buf, bufLen);
  }

  lemma CallTook(listing: seq<Dirent>, w: Window, w': Window, cookie: nat, length: nat, buf: nat, bufLen: nat,
                 used: nat, got: seq<Entry>, dooms: nat -> bool)
    requires 2 <= |listing| < TWO_TO_THE_32 && cookie <= |listing| && Tells(dooms, listing, length, buf, bufLen)
    requires TakesEvery(listing, bufLen) && bufLen < TWO_TO_THE_32
    requires Resumable(w, cookie) && w' == AfterRead(listing, w, cookie, ReadCount(bufLen))
    requires ExpectedOutcome(listing, cookie, length, buf, bufLen) == Return(Ok)
    requires TookFrom(Considered(listing, cookie, bufLen), cookie + 1, bufLen, used, got)
    ensures Fetched(listing, cookie, got, used == bufLen, w')
    ensures |got| > 0 ==> got[|got| - 1].next == cookie + |got|
    ensures dooms(cookie) <==> used == bufLen && dooms(cookie + |got|)
  {
    CallFetches(listing, w, cookie, bufLen, used, got);
    DoomedNext(listing, cookie, length, buf, bufLen, used, got, dooms);
  }

  /** What one round of the guest's loop needs. */
  ghost predicate Ready(cache: Cache, length: nat, buf: nat, bufLen: nat, result: nat, dooms: nat -> bool)
    reads cache, cache.f
  {
    && cache.Valid() && AllEncodable(cache.Listing()) && TakesEvery(cache.Listing(), bufLen)
    && Uint32s(length, buf, bufLen, result) && Apart(length, buf, bufLen, result)
    && Tells(dooms, cache.Listing(), length, buf, bufLen)
  }

  /** One round of the guest's loop. `full` tells it to go on, from the d_next of the last entry. */
  method Batch(cache: Cache, mem: array<byte>, buf: nat, bufLen: nat, result: nat, cookie: nat,
               ghost dooms: nat -> bool)
      returns (got: seq<Entry>, next: nat, full: bool, r: Outcome)
    requires Ready(cache, mem.Length, buf, bufLen, result, dooms)
    requires cookie <= |cache.Listing()| && Resumable(cache.Window(), cookie)
    modifies cache, cache.f, mem
    ensures cache.Valid()
    ensures r in {Return(Ok), Return(EIO), Panicked}
    ensures r == Panicked ==> dooms(cookie)
    ensures r == Return(Ok) ==>
              next == cookie + |got| && Fetched(cache.Listing(), cookie, got, full, cache.Window())
    ensures r == Return(Ok) ==> (dooms(cookie) <==> full && dooms(next))
  {
    var used;
    used, got, r := Call(cache, mem, buf, bufLen, result, cookie);
    full := used == bufLen;
    next := if |got| > 0 then got[|got| - 1].next else cookie;
    if r == Return(Ok) {
      CallTook(cache.Listing(), old(cache.Window()), cache.Window(), cookie, mem.Length, buf, bufLen, used, got, dooms);
    } else if r == Panicked {
      CallDoomed(cache.Listing(), cookie, mem.Length, buf, bufLen, dooms);
    }
  }

  lemma EntriesJoin(listing: seq<Dirent>, cookie: nat, k: nat)
    requires cookie + k <= |listing|
    ensures Entries(listing[..cookie], 1) + Entries(listing[cookie..cookie + k], cookie + 1) ==
            Entries(listing[..cookie + k], 1)
  {
  }

  /** What has been read of the listing: all up to `cookie`. */
  predicate Listed(all: seq<Entry>, listing: seq<Dirent>, cookie: nat) {
    cookie <= |listing| && all == Entries(listing[..cookie], 1)
  }

  /** All up to `cookie` has been read, all there is unless `full`, and `w` allows to go on. */
  predicate Progress(listing: seq<Dirent>, all: seq<Entry>, cookie: nat, full: bool, w: Window) {
    Listed(all, listing, cookie) && Resumable(w, cookie) && (full || cookie == |listing|)
  }

  lemma ProgressNext(listing: seq<Dirent>, all: seq<Entry>, cookie: nat, got: seq<Entry>, full: bool, w: Window)
    requires Listed(all, listing, cookie) && Fetched(listing, cookie, got, full, w)
    ensures Progress(listing, all + got, cookie + |got|, full, w) && (full ==> |got| > 0)
  {
    EntriesJoin(listing, cookie, |got|);
  }

  lemma ListedAll(all: seq<Entry>, listing: seq<Dirent>, cookie: nat, w: Window)
    requires Progress(listing, all, cookie, false, w)
    ensures all == Entries(listing, 1)
  {
    assert listing[..|listing|] == listing;
  }

  /** One round, and what it adds to what has been read. */
  method Round(cache: Cache, mem: array<byte>, buf: nat, bufLen: nat, result: nat, cookie: nat, before: seq<Entry>,
               ghost dooms: nat -> bool)
      returns (all: seq<Entry>, next: nat, full: bool, r: Outcome)
    requires Ready(cache, mem.Length, buf, bufLen, result, dooms)
    requires Listed(before, cache.Listing(), cookie) && Resumable(cache.Window(), cookie)
    modifies cache, cache.f, mem
    ensures cache.Valid()
    ensures r in {Return(Ok), Return(EIO), Panicked}
    ensures r == Panicked ==> dooms(cookie)
    ensures r == Return(Ok) ==> Progress(cache.Listing(), all, next, full, cache.Window()) && (full ==> next > cookie)
    ensures r == Return(Ok) ==> (dooms(cookie) <==> full && dooms(next))
  {
    var got;
    got, next, full, r := Batch(cache, mem, buf, bufLen, result, cookie, dooms);
    all := before + got;
    if r == Return(Ok) {
      ProgressNext(cache.Listing(), before, cookie, got, full, cache.Window());
    }
  }

  /** The guest's loop: from cookie 0, until the buffer is not filled. */
  method Rounds(cache: Cache, mem: array<byte>, buf: nat, bufLen: nat, result: nat, ghost dooms: nat -> bool)
      returns (all: seq<Entry>, r: Outcome)
    requires Ready(cache, mem.Length, buf, bufLen, result, dooms)
    modifies cache, cache.f, mem
    ensures r in {Return(Ok), Return(EIO), Panicked}
    ensures r == Return(Ok) ==> all == Entries(cache.Listing(), 1) && !dooms(0)
    ensures r == Panicked ==> dooms(0)
  {
    ghost var listing := cache.Listing();
    var cookie: nat := 0;
    var full := true;
    all := [];
    while full
      invariant cache.Valid() && cache.Listing() == listing
      invariant Progress(listing, all, cookie, full, cache.Window())
      invariant dooms(0) == (full && dooms(cookie))
      decreases full, |listing| - cookie
    {
      all, cookie, full, r := Round(cache, mem, buf, bufLen, result, cookie, all, dooms);
      if r != Return(Ok) {
        return;
      }
    }
    ListedAll(all, listing, cookie, cache.Window());
    r := Return(Ok);
  }

  /** A guest lists a directory: from cookie 0, until the buffer is not filled, going on from the
      d_next of the last complete entry. It gets ".", ".." and every entry once, in order, unless some
      call on the way fills a buffer that ends at 2^32, in which case that call panics. */
  method Enumerate(cache: Cache, mem: array<byte>, buf: nat, bufLen: nat, result: nat)
      returns (all: seq<Entry>, r: Outcome)
    requires cache.Valid() && AllEncodable(cache.Listing()) && TakesEvery(cache.Listing(), bufLen)
    requires Uint32s(mem.Length, buf, bufLen, result) && Apart(mem.Length, buf, bufLen, result)
    modifies cache, cache.f, mem
    ensures r in {Return(Ok), Return(EIO), Panicked}
    ensures r == Return(Ok) ==> all == Entries(cache.Listing(), 1)
    ensures r == Panicked ==> Doomed(cache.Listing(), 0, mem.Length, buf, bufLen)
    ensures r == Return(Ok) ==> !Doomed(cache.Listing(), 0, mem.Length, buf, bufLen)
  {
    ghost var listing, length := cache.Listing(), mem.Length;
    ghost var dooms: nat -> bool := (c: nat) => Doomed(listing, c, length, buf, bufLen);
    all, r := Rounds(cache, mem, buf, bufLen, result, dooms);
    assert dooms(0) == Doomed(listing, 0, length, buf, bufLen);
  }

  /** The dot entries of an empty directory, in the last 51 bytes of a memory of 65536 pages. */
  lemma ListingAtTheEndPanics(dot: Dirent, dotDot: Dirent)
    requires |dot.name| == 1 && |dotDot.name| == 2
    ensures Doomed([dot, dotDot], 0, TWO_TO_THE_32, TWO_TO_THE_32 - 51, 51)
  {
    var ds := [dot, dotDot];
    assert Considered(ds, 0, 51) == ds;
    TotalLenNext(ds, 0);
    TotalLenNext(ds, 1);
    assert ds[..0] == [] && ds[..2] == ds;
    FitsUnique(ds, 51, 2);
  }
}
