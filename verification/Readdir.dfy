/**
 The buffer of fd_readdir (imports/wasi_snapshot_preview1/fs.go): how many directory entries
 fit it, how they and a truncated last one are written, and what a guest that follows the
 protocol reads back.
 */
module Readdir {
  import opened Bytes
  import opened DirentCache
  import opened GuestMemory

  const DIRENT_SIZE: nat := 24

  /** math.MaxUint32 - DirentSize: longer entries panic. */
  const LARGEST_DIRENT: nat := TWO_TO_THE_32 - 1 - DIRENT_SIZE

  /** getWasiFiletype */
  function FileType(m: FileMode): byte {
    match m
    case Regular => 4
    case Directory => 3
    case Symlink => 7
    case CharDevice => 2
    case BlockDevice => 1
    case OtherMode => 0
  }

  /** An entry that the wire format can hold. */
  predicate Encodable(d: Dirent) {
    DIRENT_SIZE + |d.name| <= LARGEST_DIRENT && d.ino < TWO_TO_THE_64
  }

  predicate AllEncodable(ds: seq<Dirent>) {
    forall i :: 0 <= i < |ds| ==> Encodable(ds[i])
  }

  function EntryLen(d: Dirent): nat {
    DIRENT_SIZE + |d.name|
  }

  function Front(ds: seq<Dirent>): seq<Dirent>
    requires ds != []
  {
    ds[..|ds| - 1]
  }

  function Last(ds: seq<Dirent>): Dirent
    requires ds != []
  {
    ds[|ds| - 1]
  }

  // How many entries fit

  function TotalLen(ds: seq<Dirent>): nat {
    if ds == [] then 0 else TotalLen(Front(ds)) + EntryLen(Last(ds))
  }

  /** How many entries, from the first, fit completely into `room` bytes. */
  function Fits(ds: seq<Dirent>, room: nat): (k: nat)
    ensures k <= |ds|
  {
    if ds == [] then 0
    else if Fits(Front(ds), room) == |ds| - 1 && TotalLen(ds) <= room then |ds|
    else Fits(Front(ds), room)
  }

  /** One entry more in a prefix. */
  lemma TotalLenNext(ds: seq<Dirent>, i: nat)
    requires i < |ds|
    ensures TotalLen(ds[..i + 1]) == TotalLen(ds[..i]) + EntryLen(ds[i])
  {
    assert Front(ds[..i + 1]) == ds[..i];
  }

  lemma {:induction false} TotalLenGrows(ds: seq<Dirent>, i: nat, k: nat)
    requires i <= k <= |ds|
    ensures TotalLen(ds[..i]) <= TotalLen(ds[..k])
    decreases k - i
  {
    if i < k {
      TotalLenNext(ds, i);
      TotalLenGrows(ds, i + 1, k);
    }
  }

  /** Every entry takes at least its header, so a buffer never holds more than this many. */
  lemma {:induction false} TotalLenAtLeast(ds: seq<Dirent>)
    ensures TotalLen(ds) >= DIRENT_SIZE * |ds|
  {
    if ds != [] {
      TotalLenAtLeast(Front(ds));
    }
  }

  /** Fits is the longest prefix whose total length is at most `room`. */
  lemma {:induction false} FitsIsLongest(ds: seq<Dirent>, room: nat)
    ensures TotalLen(ds[..Fits(ds, room)]) <= room
    ensures Fits(ds, room) < |ds| ==> TotalLen(ds[..Fits(ds, room)]) + EntryLen(ds[Fits(ds, room)]) > room
  {
    if ds != [] {
      var k := Fits(Front(ds), room);
      FitsIsLongest(Front(ds), room);
      assert Front(ds)[..k] == ds[..k];
      assert ds[..|ds|] == ds;
    }
  }

  /** No other prefix is. */
  lemma FitsUnique(ds: seq<Dirent>, room: nat, k: nat)
    requires k <= |ds| && TotalLen(ds[..k]) <= room
    requires k < |ds| ==> TotalLen(ds[..k]) + EntryLen(ds[k]) > room
    ensures Fits(ds, room) == k
  {
    var f := Fits(ds, room);
    FitsIsLongest(ds, room);
    if k < f {
      TotalLenNext(ds, k);
      TotalLenGrows(ds, k + 1, f);
    } else if f < k {
      TotalLenNext(ds, f);
      TotalLenGrows(ds, f + 1, k);
    }
  }

  /** What is written of the entry that no longer fits: its header, or what room there is. */
  function TruncatedLen(ds: seq<Dirent>, room: nat): nat {
    var k := Fits(ds, room);
    var rest := room - TotalLen(ds[..k]);
    if k == |ds| || rest <= 0 then 0 else if rest >= DIRENT_SIZE then DIRENT_SIZE else rest
  }

  /** maxDirents */
  method MaxDirents(dirents: seq<Dirent>, bufLen: nat) returns (bufToWrite: nat, direntCount: nat, truncatedLen: nat)
    requires AllEncodable(dirents)
    ensures truncatedLen == TruncatedLen(dirents, bufLen)
    ensures direntCount == Fits(dirents, bufLen) + if truncatedLen > 0 then 1 else 0
    ensures bufToWrite == TotalLen(dirents[..Fits(dirents, bufLen)]) + truncatedLen <= bufLen
  {
    var lenRemaining := bufLen;
    bufToWrite, direntCount, truncatedLen := 0, 0, 0;
    var i := 0;
    while i < |dirents| && lenRemaining != 0
      invariant 0 <= i == direntCount <= |dirents| && truncatedLen == 0
      invariant bufToWrite == TotalLen(dirents[..i]) && bufToWrite + lenRemaining == bufLen && lenRemaining >= 0
    {
      direntCount := direntCount + 1;
      var entryLen := DIRENT_SIZE + |dirents[i].name|;
      if entryLen > lenRemaining {
        truncatedLen := if lenRemaining >= DIRENT_SIZE then DIRENT_SIZE else lenRemaining;
        FitsUnique(dirents, bufLen, i);
        bufToWrite := bufToWrite + truncatedLen;
        return;
      }
      TotalLenNext(dirents, i);
      lenRemaining := lenRemaining - entryLen;
      bufToWrite := bufToWrite + entryLen;
      i := i + 1;
    }
    FitsUnique(dirents, bufLen, i);
  }

  // The wire format

  /** The header of an entry; d_next is a uint64 and wraps around as such. */
  function Header(d: Dirent, next: nat): (bs: seq<byte>)
    ensures |bs| == DIRENT_SIZE
  {
    ToLE(next, U64_SIZE) + ToLE(d.ino, U64_SIZE) + ToLE(|d.name|, U32_SIZE) + ToLE(FileType(d.mode), U32_SIZE)
  }

  /** An entry, without its name if it is truncated. */
  function EntryBytes(d: Dirent, next: nat, named: bool): (bs: seq<byte>)
    ensures |bs| == DIRENT_SIZE + if named then |d.name| else 0
  {
    Header(d, next) + if named then d.name else []
  }

  /** Complete entries with consecutive d_next, the first one `next`. */
  function EncodeAll(ds: seq<Dirent>, next: nat): (bs: seq<byte>)
    ensures |bs| == TotalLen(ds)
  {
    if ds == [] then [] else EncodeAll(Front(ds), next) + EntryBytes(Last(ds), next + |ds| - 1, true)
  }

  lemma EncodeNext(ds: seq<Dirent>, i: nat, next: nat)
    requires i < |ds|
    ensures EncodeAll(ds[..i + 1], next) == EncodeAll(ds[..i], next) + EntryBytes(ds[i], next + i, true)
  {
    assert Front(ds[..i + 1]) == ds[..i];
  }

  /** The header of the entry that no longer fits, if there is room for all of it. */
  function TruncatedBytes(ds: seq<Dirent>, next: nat, room: nat): (bs: seq<byte>)
    ensures |bs| == if TruncatedLen(ds, room) == DIRENT_SIZE then DIRENT_SIZE else 0
  {
    var k := Fits(ds, room);
    if TruncatedLen(ds, room) == DIRENT_SIZE then EntryBytes(ds[k], next + k, false) else []
  }

  /** The bytes written for `ds`. */
  function Written(ds: seq<Dirent>, next: nat, room: nat): (bs: seq<byte>)
    ensures |bs| <= TotalLen(ds[..Fits(ds, room)]) + TruncatedLen(ds, room)
  {
    EncodeAll(ds[..Fits(ds, room)], next) + TruncatedBytes(ds, next, room)
  }

  // Writing it

  /** writeDirent */
  method WriteDirent(mem: array<byte>, off: nat, dNext: nat, d: Dirent)
    requires off + DIRENT_SIZE <= mem.Length
    modifies mem
    ensures mem[..] == Overwritten(old(mem[..]), off, Header(d, dNext))
  {
    ghost var s := mem[..];
    var a, b := ToLE(dNext, U64_SIZE), ToLE(d.ino, U64_SIZE);
    var c, e := ToLE(|d.name|, U32_SIZE), ToLE(FileType(d.mode), U32_SIZE);
    WriteAt(mem, off, a);
    WriteAt(mem, off + 8, b);
    OverwrittenTwice(s, off, a, b);
    WriteAt(mem, off + 16, c);
    OverwrittenTwice(s, off, a + b, c);
    WriteAt(mem, off + 20, e);
    OverwrittenTwice(s, off, a + b + c, e);
  }

  /** A header and, unless the entry is truncated, the name behind it. */
  method WriteEntry(mem: array<byte>, off: nat, dNext: nat, d: Dirent, named: bool)
    requires off + |EntryBytes(d, dNext, named)| <= mem.Length
    modifies mem
    ensures mem[..] == Overwritten(old(mem[..]), off, EntryBytes(d, dNext, named))
  {
    WriteDirent(mem, off, dNext, d);
    if named {
      WriteAt(mem, off + DIRENT_SIZE, d.name);
      OverwrittenTwice(old(mem[..]), off, Header(d, dNext), d.name);
    }
  }

  ghost predicate Behind(before: seq<byte>, after: seq<byte>, d: Dirent, next: nat, named: bool) {
    after == before + EntryBytes(d, next, named)
  }

  /** The same behind what has been written before. */
  method WriteBehind(mem: array<byte>, at: nat, dNext: nat, d: Dirent, named: bool,
                     ghost s: seq<byte>, ghost off: nat, ghost before: seq<byte>, ghost after: seq<byte>)
    requires Behind(before, after, d, dNext, named) && off + |after| <= |s| == mem.Length
    requires at == off + |before| && Holds(mem[..], s, off, before)
    modifies mem
    ensures Holds(mem[..], s, off, after)
    ensures |after| == |before| + DIRENT_SIZE + if named then |d.name| else 0
  {
    WriteEntry(mem, at, dNext, d, named);
    OverwrittenTwice(s, off, before, EntryBytes(d, dNext, named));
  }

  /** What has been written after `i` entries. */
  ghost function Partial(ds: seq<Dirent>, next: nat, room: nat, i: nat): seq<byte>
    requires i <= |ds|
  {
    if i <= Fits(ds, room) then EncodeAll(ds[..i], next) else Written(ds, next, room)
  }

  lemma PartialNext(ds: seq<Dirent>, next: nat, room: nat, i: nat)
    requires i < |ds| && i <= Fits(ds, room)
    requires i == Fits(ds, room) ==> TruncatedLen(ds, room) == DIRENT_SIZE
    ensures Partial(ds, next, room, i + 1) ==
            Partial(ds, next, room, i) + EntryBytes(ds[i], next + i, i < Fits(ds, room))
  {
    if i < Fits(ds, room) {
      EncodeNext(ds, i, next);
    }
  }

  lemma PartialLast(ds: seq<Dirent>, next: nat, room: nat)
    ensures Partial(ds, next, room, 0) == []
    ensures TruncatedLen(ds, room) != DIRENT_SIZE ==> Partial(ds, next, room, Fits(ds, room)) == Written(ds, next, room)
    ensures TruncatedLen(ds, room) == DIRENT_SIZE ==>
              Partial(ds, next, room, Fits(ds, room) + 1) == Written(ds, next, room)
  {
    AppendNothing(EncodeAll(ds[..Fits(ds, room)], next));
  }

  /** Writing entry `i` takes what is written from part `i` to part `i + 1`. */
  ghost predicate Extends(parts: seq<seq<byte>>, ds: seq<Dirent>, next: nat, complete: nat, i: nat)
    requires i < |ds| && i + 1 < |parts|
  {
    Behind(parts[i], parts[i + 1], ds[i], next + i, i < complete)
  }

  /** What is written after each of the first `count` entries. */
  lemma Parts(ds: seq<Dirent>, next: nat, room: nat, count: nat) returns (parts: seq<seq<byte>>)
    requires count == Fits(ds, room) + if TruncatedLen(ds, room) == DIRENT_SIZE then 1 else 0
    ensures |parts| == count + 1 && parts[0] == [] && parts[count] == Written(ds, next, room)
    ensures forall i :: 0 <= i < count ==> Extends(parts, ds, next, Fits(ds, room), i)
    ensures forall i :: 0 <= i <= count ==> |parts[i]| <= TotalLen(ds[..Fits(ds, room)]) + TruncatedLen(ds, room)
  {
    parts := seq(count + 1, i requires 0 <= i <= count => Partial(ds, next, room, i));
    PartialLast(ds, next, room);
    forall i | 0 <= i < count
      ensures Extends(parts, ds, next, Fits(ds, room), i)
    {
      PartialNext(ds, next, room, i);
      assert parts[i] == Partial(ds, next, room, i) && parts[i + 1] == Partial(ds, next, room, i + 1);
    }
    forall i | 0 <= i <= count
      ensures |parts[i]| <= TotalLen(ds[..Fits(ds, room)]) + TruncatedLen(ds, room)
    {
      PartialFits(ds, next, room, i);
    }
  }

  lemma PartialFits(ds: seq<Dirent>, next: nat, room: nat, i: nat)
    requires i <= |ds| && i <= Fits(ds, room) + if TruncatedLen(ds, room) == DIRENT_SIZE then 1 else 0
    ensures |Partial(ds, next, room, i)| <= TotalLen(ds[..Fits(ds, room)]) + TruncatedLen(ds, room)
  {
    if i <= Fits(ds, room) {
      TotalLenGrows(ds, i, Fits(ds, room));
    }
  }

  /** writeDirents: `off` is where the buffer lies in memory. */
  method WriteDirents(mem: array<byte>, off: nat, dirents: seq<Dirent>, dNext: nat,
                      direntCount: nat, truncatedLen: nat, ghost room: nat)
    requires truncatedLen == TruncatedLen(dirents, room)
    requires direntCount == Fits(dirents, room) + if truncatedLen > 0 then 1 else 0
    requires off + TotalLen(dirents[..Fits(dirents, room)]) + truncatedLen <= mem.Length
    modifies mem
    ensures mem[..] == Overwritten(old(mem[..]), off, Written(dirents, dNext, room))
  {
    var count := direntCount;
    var skipNameI: int := -1;
    if truncatedLen > 0 {
      if truncatedLen < DIRENT_SIZE {
        count := count - 1;
      } else {
        skipNameI := count - 1;
      }
    }
    ghost var parts := Parts(dirents, dNext, room, count);
    WriteAll(mem, off, dirents, dNext, count, skipNameI, parts, Fits(dirents, room));
  }

  /** Its loop. */
  method WriteAll(mem: array<byte>, off: nat, dirents: seq<Dirent>, dNext: nat, count: nat, skipNameI: int,
                  ghost parts: seq<seq<byte>>, ghost complete: nat)
    requires count <= |dirents| && |parts| == count + 1 && parts[0] == [] && off <= mem.Length
    requires forall i :: 0 <= i < count ==> Extends(parts, dirents, dNext, complete, i)
    requires forall i :: 0 <= i <= count ==> off + |parts[i]| <= mem.Length
    requires if complete < count then skipNameI == complete == count - 1 else skipNameI == -1
    modifies mem
    ensures Holds(mem[..], old(mem[..]), off, parts[count])
  {
    ghost var s := mem[..];
    var pos, next := 0, dNext;
    assert Holds(mem[..], s, off, []);
    var i := 0;
    while i < count
      invariant 0 <= i <= count
      invariant next == dNext + i
      invariant pos == |parts[i]|
      invariant Holds(mem[..], s, off, parts[i])
    {
      var named := i != skipNameI;
      assert Extends(parts, dirents, dNext, complete, i);
      WriteBehind(mem, off + pos, next, dirents[i], named, s, off, parts[i], parts[i + 1]);
      pos := pos + DIRENT_SIZE;
      if named {
        pos := pos + |dirents[i].name|;
      }
      next := next + 1;
      i := i + 1;
    }
  }

  // What a guest reads back

  datatype Entry = Entry(next: nat, ino: nat, fileType: nat, name: seq<byte>)

  /** The complete entries at the front of a buffer, as wasi-libc's readdir takes them. */
  function Parse(bs: seq<byte>): seq<Entry>
    decreases |bs|
  {
    if |bs| < DIRENT_SIZE then []
    else
      var len := FromLE(bs[16..20]);
      if DIRENT_SIZE + len > |bs| then []
      else [Entry(FromLE(bs[..8]), FromLE(bs[8..16]), FromLE(bs[20..24]), bs[24..24 + len])] + Parse(bs[24 + len..])
  }

  /** What should be read back for `d`. */
  function EntryOf(d: Dirent, next: nat): Entry {
    Entry(next, d.ino, FileType(d.mode), d.name)
  }

  function Entries(ds: seq<Dirent>, next: nat): (es: seq<Entry>)
    ensures |es| == |ds|
  {
    seq(|ds|, i requires 0 <= i < |ds| => EntryOf(ds[i], next + i))
  }

  lemma HeaderReadsBack(d: Dirent, next: nat, rest: seq<byte>)
    requires Encodable(d) && next < TWO_TO_THE_64
    ensures var bs := Header(d, next) + rest;
            && FromLE(bs[..8]) == next
            && FromLE(bs[8..16]) == d.ino
            && FromLE(bs[16..20]) == |d.name|
            && FromLE(bs[20..24]) == FileType(d.mode)
  {
    Pow256Values();
    LERoundTrip(next, U64_SIZE);
    LERoundTrip(d.ino, U64_SIZE);
    LERoundTrip(|d.name|, U32_SIZE);
    LERoundTrip(FileType(d.mode), U32_SIZE);
    var bs := Header(d, next) + rest;
    assert bs[..8] == ToLE(next, U64_SIZE);
    assert bs[8..16] == ToLE(d.ino, U64_SIZE);
    assert bs[16..20] == ToLE(|d.name|, U32_SIZE);
    assert bs[20..24] == ToLE(FileType(d.mode), U32_SIZE);
  }

  /** Parsing takes off one encoded entry. */
  lemma ParseOne(d: Dirent, next: nat, rest: seq<byte>)
    requires Encodable(d) && next < TWO_TO_THE_64
    ensures Parse(EntryBytes(d, next, true) + rest) == [EntryOf(d, next)] + Parse(rest)
  {
    var bs := EntryBytes(d, next, true) + rest;
    HeaderReadsBack(d, next, d.name + rest);
    AppendAssociates(Header(d, next), d.name, rest);
    assert bs[24..24 + |d.name|] == d.name;
    assert bs[24 + |d.name|..] == rest;
  }

  /** An entry whose name is cut off is not taken. */
  lemma ParseCut(d: Dirent, next: nat, stale: seq<byte>)
    requires Encodable(d) && next < TWO_TO_THE_64 && |stale| < |d.name|
    ensures Parse(EntryBytes(d, next, false) + stale) == []
  {
    HeaderReadsBack(d, next, stale);
    assert EntryBytes(d, next, false) == Header(d, next);
  }

  /** Parsing undoes the encoding, whatever follows it. */
  lemma {:induction false} ParseEncoded(ds: seq<Dirent>, next: nat, tail: seq<byte>)
    requires AllEncodable(ds) && next + |ds| <= TWO_TO_THE_64
    ensures Parse(EncodeAll(ds, next) + tail) == Entries(ds, next) + Parse(tail)
    decreases |ds|
  {
    if ds == [] {
      assert EncodeAll(ds, next) + tail == tail;
    } else {
      var front, d, n := Front(ds), Last(ds), next + |ds| - 1;
      var last := EntryBytes(d, n, true);
      calc {
        Parse((EncodeAll(front, next) + last) + tail);
        { AppendAssociates(EncodeAll(front, next), last, tail); }
        Parse(EncodeAll(front, next) + (last + tail));
        { ParseEncoded(front, next, last + tail); }
        Entries(front, next) + Parse(last + tail);
        { ParseOne(d, n, tail); }
        Entries(front, next) + ([EntryOf(d, n)] + Parse(tail));
        { AppendAssociates(Entries(front, next), [EntryOf(d, n)], Parse(tail));
          assert Entries(ds, next) == Entries(front, next) + [EntryOf(d, n)]; }
        Entries(ds, next) + Parse(tail);
      }
    }
  }

  /** The value that fd_readdir reports in bufused. */
  function Bufused(ds: seq<Dirent>, bufLen: nat): nat {
    if TruncatedLen(ds, bufLen) > 0 then bufLen else TotalLen(ds[..Fits(ds, bufLen)])
  }

  lemma BufusedFits(ds: seq<Dirent>, next: nat, bufLen: nat)
    ensures |Written(ds, next, bufLen)| <= Bufused(ds, bufLen) <= bufLen
  {
    FitsIsLongest(ds, bufLen);
  }

  /** A guest that parses the used part of its buffer gets exactly the complete entries with
      consecutive d_next, whatever the buffer held before. */
  lemma BufferRoundTrip(ds: seq<Dirent>, next: nat, bufLen: nat, stale: seq<byte>)
    requires AllEncodable(ds) && next + |ds| <= TWO_TO_THE_64
    requires |Written(ds, next, bufLen)| + |stale| == Bufused(ds, bufLen)
    ensures Parse(Written(ds, next, bufLen) + stale) == Entries(ds[..Fits(ds, bufLen)], next)
  {
    var k := Fits(ds, bufLen);
    TruncatedIsNotTaken(ds, next, bufLen, stale);
    ParseTail(ds[..k], next, TruncatedBytes(ds, next, bufLen), stale);
  }

  lemma TruncatedIsNotTaken(ds: seq<Dirent>, next: nat, bufLen: nat, stale: seq<byte>)
    requires AllEncodable(ds) && next + |ds| <= TWO_TO_THE_64
    requires |Written(ds, next, bufLen)| + |stale| == Bufused(ds, bufLen)
    ensures Parse(TruncatedBytes(ds, next, bufLen) + stale) == []
  {
    FitsIsLongest(ds, bufLen);
    if TruncatedLen(ds, bufLen) == DIRENT_SIZE {
      HeaderIsNotTaken(ds, next, bufLen, stale);
    } else {
      assert TruncatedBytes(ds, next, bufLen) + stale == stale;
    }
  }

  lemma HeaderIsNotTaken(ds: seq<Dirent>, next: nat, bufLen: nat, stale: seq<byte>)
    requires AllEncodable(ds) && next + |ds| <= TWO_TO_THE_64 && TruncatedLen(ds, bufLen) == DIRENT_SIZE
    requires Fits(ds, bufLen) < |ds| && |stale| < |ds[Fits(ds, bufLen)].name|
    ensures Parse(TruncatedBytes(ds, next, bufLen) + stale) == []
  {
    ParseCut(ds[Fits(ds, bufLen)], next + Fits(ds, bufLen), stale);
  }

  lemma ParseTail(ds: seq<Dirent>, next: nat, truncated: seq<byte>, stale: seq<byte>)
    requires AllEncodable(ds) && next + |ds| <= TWO_TO_THE_64 && Parse(truncated + stale) == []
    ensures Parse(EncodeAll(ds, next) + truncated + stale) == Entries(ds, next)
  {
    ParseEncoded(ds, next, truncated + stale);
    AppendNothing(Entries(ds, next));
    AppendAssociates(EncodeAll(ds, next), truncated, stale);
  }

  /** How many entries fd_readdir asks its cache for. */
  function ReadCount(bufLen: nat): nat {
    bufLen / DIRENT_SIZE + 2
  }

  /** bufused below buf_len means that the end of the directory has been written. */
  lemma ShortMeansEnd(listing: seq<Dirent>, cookie: nat, bufLen: nat)
    requires cookie <= |listing|
    requires Bufused(Slice(listing, cookie, ReadCount(bufLen)), bufLen) < bufLen
    ensures Fits(Slice(listing, cookie, ReadCount(bufLen)), bufLen) == |listing| - cookie
  {
    var ds := Slice(listing, cookie, ReadCount(bufLen));
    FitsIsLongest(ds, bufLen);
    assert Fits(ds, bufLen) == |ds| && ds[..|ds|] == ds;
    TotalLenAtLeast(ds);
  }
}
