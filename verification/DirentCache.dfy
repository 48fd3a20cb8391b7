/**
 DirentCache (internal/sys/fs.go): a sliding window over a directory that can only be read
 forward or rewound. Over any sequence of reads it shows a prefix of one listing, "." and
 ".." followed by the directory's entries.
 */
module DirentCache {
  import opened Bytes

  /** fs.FileMode as far as getWasiFiletype tells modes apart. */
  datatype FileMode = Regular | Directory | Symlink | CharDevice | BlockDevice | OtherMode

  datatype Dirent = Dirent(name: seq<byte>, ino: nat, mode: FileMode)

  datatype Errno = Ok | ENOENT | EIO | EINVAL | EFAULT

  /** The open directory, as sys.File promises it: Readdir goes on where it stopped, returns
      fewer entries than asked only at the end, and Seek to zero rewinds. A call may fail, in
      which case it has not moved. */
  class Dir {
    const entries: seq<Dirent>
    var pos: nat

    ghost predicate Valid()
      reads this
    {
      pos <= |entries|
    }

    constructor (entries: seq<Dirent>)
      ensures Valid() && pos == 0 && this.entries == entries
    {
      this.entries, pos := entries, 0;
    }

    method SeekStart() returns (errno: Errno)
      modifies this
      ensures errno == Ok || (errno == EIO && pos == old(pos))
      ensures errno == Ok ==> pos == 0
    {
      if * {
        return EIO;
      }
      pos := 0;
      return Ok;
    }

    method Readdir(n: nat) returns (dirents: seq<Dirent>, errno: Errno)
      requires Valid()
      modifies this
      ensures Valid()
      ensures errno == Ok || (errno == EIO && pos == old(pos))
      ensures errno == Ok ==> pos == Min(old(pos) + n, |entries|) && dirents == entries[old(pos)..pos]
    {
      if * {
        return [], EIO;
      }
      var end := Min(pos + n, |entries|);
      dirents, errno := entries[pos..end], Ok;
      pos := end;
    }
  }

  function Min(a: nat, b: nat): nat {
    if a < b then a else b
  }

  function Later(a: nat, b: nat): nat {
    if a < b then b else a
  }

  // The specification: which part of the listing is cached, and what a read returns

  /** `Fresh` is a nil cache; otherwise entries `start` up to `end` of the listing are cached. */
  datatype Window = Fresh | Cached(start: nat, end: nat)

  function CountRead(w: Window): nat {
    if w.Fresh? then 0 else w.end
  }

  /** A position that can no longer, or not yet, be read from. */
  predicate OutOfWindow(w: Window, pos: nat, n: nat) {
    pos > CountRead(w) || (n != 0 && pos != 0 && w.Cached? && pos < w.start)
  }

  /** Up to `n` entries of the listing from `pos`. */
  function Slice(listing: seq<Dirent>, pos: nat, n: nat): seq<Dirent>
    requires pos <= |listing|
  {
    listing[pos..Min(pos + n, |listing|)]
  }

  /** The number of entries that the first read after a rewind asks the directory for. `n - 2`
      is computed in uint32, so that 1 wraps around to nearly all. */
  function FirstCount(n: nat): nat
    requires n < TWO_TO_THE_32
  {
    if n >= 2 then n - 2 else n + TWO_TO_THE_32 - 2
  }

  /** The window after a read that does not fail. */
  function AfterRead(listing: seq<Dirent>, w: Window, pos: nat, n: nat): Window
    requires |listing| >= 2 && n < TWO_TO_THE_32
  {
    if OutOfWindow(w, pos, n) then w
    else if n == 0 then (if pos == 0 then Fresh else w)
    else if pos == 0 then Cached(0, Min(2 + FirstCount(n), |listing|))
    else if w.Fresh? then w
    else Cached(pos, Later(w.end, Min(pos + n, |listing|)))
  }

  /** A read that has failed took the window from `w` to `w'`, and the same read can be tried again: it
      does then what it would have done at first. */
  predicate Retryable(listing: seq<Dirent>, w: Window, w': Window, pos: nat, n: nat)
    requires |listing| >= 2 && n < TWO_TO_THE_32
  {
    !OutOfWindow(w', pos, n) && AfterRead(listing, w', pos, n) == AfterRead(listing, w, pos, n)
  }

  class Cache {
    const f: Dir
    const dotEntries: seq<Dirent>
    var dirents: seq<Dirent>
    var loaded: bool
    var countRead: nat
    var eof: bool

    ghost function Listing(): seq<Dirent> {
      dotEntries + f.entries
    }

    ghost function Window(): Window
      reads this
    {
      if loaded && |dirents| <= countRead then Cached(countRead - |dirents|, countRead) else Fresh
    }

    /** The cache is the window of the listing that ends where the directory has been read to. */
    ghost predicate Valid()
      reads this, f
    {
      && f.Valid() && |dotEntries| == 2 && |Listing()| < TWO_TO_THE_32
      && (!loaded ==> countRead == 0 && f.pos == 0)
      && (loaded ==> && countRead == 2 + f.pos && |dirents| <= countRead
                     && dirents == Listing()[countRead - |dirents|..countRead]
                     && (eof ==> countRead == |Listing()|))
    }

    constructor (f: Dir, dotEntries: seq<Dirent>)
      requires f.Valid() && f.pos == 0 && |dotEntries| == 2 && 2 + |f.entries| < TWO_TO_THE_32
      ensures Valid() && this.f == f && this.dotEntries == dotEntries && Window() == Fresh
    {
      this.f, this.dotEntries := f, dotEntries;
      dirents, loaded, countRead, eof := [], false, 0, false;
    }

    /** cachedDirents: `direntCount` is a uint32. */
    method CachedDirents(n: nat) returns (r: seq<Dirent>)
      requires |dirents| < TWO_TO_THE_32
      ensures r == dirents[..Min(n, |dirents|)]
    {
      var direntCount := |dirents| % TWO_TO_THE_32;
      if direntCount == 0 {
        return [];
      } else if direntCount > n {
        return dirents[..n];
      }
      return dirents;
    }

    /** Fills a nil cache with the dot entries and the first entries of the directory. */
    method FirstRead(n: nat) returns (r: seq<Dirent>, errno: Errno)
      requires Valid() && !loaded && 0 < n < TWO_TO_THE_32
      modifies this, f
      ensures Valid()
      ensures errno == Ok || errno == EIO
      ensures errno == EIO ==> Window() == Cached(0, 2)
      ensures errno == Ok ==> Window() == AfterRead(Listing(), old(Window()), 0, n)
      ensures errno == Ok ==> r == if n == 2 then [] else Slice(Listing(), 0, n)
    {
      dirents, loaded, countRead, eof := dotEntries, true, 2, false;
      assert Listing()[0..2] == dotEntries;
      var countToRead := FirstCount(n);
      if countToRead <= 0 {
        return [], Ok;
      }
      var more;
      more, errno := f.Readdir(countToRead);
      if errno != Ok {
        return more, errno;
      }
      if |more| > 0 {
        eof := |more| < countToRead;
        dirents := dotEntries + more;
        countRead := countRead + |more|;
      }
      assert dirents == Listing()[0..countRead];
      r := CachedDirents(n);
    }

    /** Reads on behind the cached entries until `n` are cached or the directory ends. */
    method ReadMore(n: nat) returns (errno: Errno)
      requires Valid() && loaded
      modifies this, f
      ensures Valid() && loaded && countRead - |dirents| == old(countRead - |dirents|)
      ensures errno == Ok || (errno == EIO && countRead == old(countRead))
      ensures errno == Ok ==> countRead == Later(old(countRead), Min(countRead - |dirents| + n, |Listing()|))
    {
      ghost var start := countRead - |dirents|;
      if n > |dirents| && !eof {
        var countToRead := n - |dirents|;
        var more;
        more, errno := f.Readdir(countToRead);
        if errno != Ok {
          return;
        }
        if |more| > 0 {
          eof := |more| < countToRead;
          dirents := dirents + more;
          countRead := countRead + |more|;
        }
        assert dirents == Listing()[start..countRead];
      }
      errno := Ok;
    }

    /** Slides the window to `pos` and reads on as far as `n` entries need. */
    method NextRead(pos: nat, n: nat) returns (r: seq<Dirent>, errno: Errno)
      requires Valid() && loaded && countRead - |dirents| <= pos <= countRead && 0 < n < TWO_TO_THE_32 && pos != 0
      modifies this, f
      ensures Valid()
      ensures errno == Ok || (errno == EIO && Window() == Cached(pos, old(countRead)))
      ensures errno == Ok ==> Window() == AfterRead(Listing(), old(Window()), pos, n)
      ensures errno == Ok ==> r == Slice(Listing(), pos, n)
    {
      dirents := dirents[pos - (countRead - |dirents|)..];
      assert dirents == Listing()[pos..countRead];
      errno := ReadMore(n);
      if errno != Ok {
        return [], errno;
      }
      assert dirents == Listing()[pos..countRead];
      r := CachedDirents(n);
    }

    /** Read: what the cache returns, for every position and count. The documented result, up to `n`
        entries from `pos`, is missed by exactly one request: two entries from the start. */
    method Read(pos: nat, n: nat) returns (r: seq<Dirent>, errno: Errno)
      requires Valid() && n < TWO_TO_THE_32
      modifies this, f
      ensures Valid()
      ensures errno in {Ok, ENOENT, EIO}
      ensures errno == ENOENT <==> OutOfWindow(old(Window()), pos, n)
      ensures errno == ENOENT ==> Window() == old(Window())
      ensures errno == Ok ==> Window() == AfterRead(Listing(), old(Window()), pos, n)
      ensures errno == Ok ==> pos <= |Listing()| && (r == Slice(Listing(), pos, n) <==> !(pos == 0 && n == 2))
      ensures errno == Ok && pos == 0 && n == 2 ==> r == []
      ensures errno == EIO ==> Retryable(Listing(), old(Window()), Window(), pos, n)
    {
      if pos > countRead {
        return [], ENOENT;
      } else if pos == 0 && loaded {
        errno := f.SeekStart();
        if errno != Ok {
          return [], errno;
        }
        dirents, loaded := [], false;
        countRead := 0;
      }
      if n == 0 {
        return [], Ok;
      }
      if !loaded {
        r, errno := FirstRead(n);
        return;
      }
      if pos < countRead - |dirents| {
        return [], ENOENT;
      }
      r, errno := NextRead(pos, n);
    }
  }
}
