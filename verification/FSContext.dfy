/**
 FSContext (internal/sys/fs.go): the open files of a guest under their descriptors. Whatever the
 guest does, descriptors stay within a fixed bound and preopened files stay where they are.
 */
module FSContext {
  import opened DescriptorTable

  /** maxFileDescriptor */
  const MAX_FILE_DESCRIPTOR: nat := 0x10_0000

  type FileId(==, !new)

  datatype Errno = Ok | EBADF | EMFILE | ENOTSUP | HostError(code: int)

  /** A host file, and which of the optional interfaces it has. */
  datatype File = File(id: FileId, isTCPSock: bool, isPollable: bool)

  datatype FileEntry = FileEntry(name: string, isPreopen: bool, file: File) | NoFile

  /** What the host answers to an open or an accept. */
  datatype Opened = Opened(file: File) | Failed(errno: Errno)

  type Files = map<int, FileEntry>

  /** Every descriptor is within the bound, and holds a file. */
  predicate Bounded(m: Files) {
    forall fd :: fd in m ==> 0 <= fd <= MAX_FILE_DESCRIPTOR && m[fd].FileEntry?
  }

  ghost function Below(m: Files, n: int): set<int> {
    set fd | fd in m && fd < n
  }

  lemma {:induction false} FewBelow(m: Files, n: nat)
    requires Bounded(m)
    ensures |Below(m, n)| <= n
  {
    if n == 0 {
      assert Below(m, n) == {};
    } else {
      FewBelow(m, n - 1);
      if n - 1 in m {
        assert Below(m, n) == Below(m, n - 1) + {n - 1};
      } else {
        assert Below(m, n) == Below(m, n - 1);
      }
    }
  }

  lemma BoundedSize(m: Files)
    requires Bounded(m)
    ensures |m| <= MAX_FILE_DESCRIPTOR + 1
  {
    FewBelow(m, MAX_FILE_DESCRIPTOR + 1);
    assert m.Keys == Below(m, MAX_FILE_DESCRIPTOR + 1);
  }

  // What each operation does to the files

  function NameOf(path: string): string {
    if path == "/" || path == "." then "" else path
  }

  function RenumberErrno(m: Files, from: int, to: int): Errno
    requires Bounded(m)
  {
    if from !in m || to < 0 || to > MAX_FILE_DESCRIPTOR then EBADF
    else if m[from].isPreopen then ENOTSUP
    else if to in m && to != from && m[to].isPreopen then ENOTSUP
    else Ok
  }

  function Renumbered(m: Files, from: int, to: int): Files
    requires from in m
  {
    (m - {from})[to := m[from]]
  }

  class Context {
    const openedFiles: Table<FileEntry>
    var closes: seq<File>

    ghost predicate Valid()
      reads this, openedFiles
    {
      openedFiles.Valid() && openedFiles.zero == NoFile && Bounded(openedFiles.Map())
    }

    ghost function Files(): Files
      requires Valid()
      reads this, openedFiles
    {
      openedFiles.Map()
    }

    constructor ()
      ensures Valid() && fresh(openedFiles) && Files() == map[] && closes == []
    {
      openedFiles := new Table<FileEntry>(NoFile);
      closes := [];
    }

    method LookupFile(fd: int) returns (f: FileEntry, ok: bool)
      requires Valid()
      ensures ok == (fd in Files()) && f == if ok then Files()[fd] else NoFile
    {
      f, ok := openedFiles.Lookup(fd);
    }

    /** Puts a file into the table; there is room for it. */
    method Insert(entry: FileEntry) returns (fd: int, errno: Errno)
      requires Valid() && |Files()| < MAX_FILE_DESCRIPTOR && entry.FileEntry?
      modifies openedFiles
      ensures Valid() && errno == Ok
      ensures Takes(old(Files()), fd) && Files() == old(Files())[fd := entry]
    {
      var ok;
      fd, ok := openedFiles.Insert(entry);
      if !ok {
        return 0, EBADF;
      }
      errno := Ok;
    }

    method OpenFile(path: string, answer: Opened) returns (fd: int, errno: Errno)
      requires Valid() && (answer.Failed? ==> answer.errno != Ok)
      modifies openedFiles
      ensures Valid()
      ensures errno == (if |old(Files())| >= MAX_FILE_DESCRIPTOR then EMFILE
                        else if answer.Failed? then answer.errno else Ok)
      ensures errno != Ok ==> Files() == old(Files())
      ensures errno == Ok ==> Succeeds(old(Files()), Open(fd, FileEntry(NameOf(path), false, answer.file)), Files())
    {
      var n := openedFiles.Len();
      if n >= MAX_FILE_DESCRIPTOR {
        return 0, EMFILE;
      }
      if answer.Failed? {
        return 0, answer.errno;
      }
      var name := path;
      if path == "/" || path == "." {
        name := "";
      }
      fd, errno := Insert(FileEntry(name, false, answer.file));
    }

    /** Renumber: the file at `from` moves to `to`, and what was open there is closed. */
    method Renumber(from: int, to: int) returns (errno: Errno)
      requires Valid()
      modifies this, openedFiles
      ensures Valid() && errno == RenumberErrno(old(Files()), from, to)
      ensures errno != Ok ==> Files() == old(Files()) && closes == old(closes)
      ensures errno == Ok ==> Succeeds(old(Files()), Call.Renumber(from, to), Files())
      ensures errno == Ok ==>
                closes == old(closes) + if to in old(Files()) && to != from then [old(Files())[to].file] else []
    {
      var fromFile, ok := openedFiles.Lookup(from);
      if !ok || to < 0 || to > MAX_FILE_DESCRIPTOR {
        return EBADF;
      } else if fromFile.isPreopen {
        return ENOTSUP;
      }
      var toFile, open := openedFiles.Lookup(to);
      if open && to != from {
        if toFile.isPreopen {
          return ENOTSUP;
        }
        closes := closes + [toFile.file];
      }
      openedFiles.Delete(from);
      ok := openedFiles.InsertAt(fromFile, to);
      if !ok {
        return EBADF;
      }
      return Ok;
    }

    /** SockAccept: `conn` is what the listener gives, `setNonblock` what the connection answers. */
    method SockAccept(sockFD: int, nonblock: bool, conn: Opened, setNonblock: Errno) returns (fd: int, errno: Errno)
      requires Valid() && (conn.Failed? ==> conn.errno != Ok)
      modifies this, openedFiles
      ensures Valid()
      ensures errno == AcceptErrno(old(Files()), sockFD, nonblock, conn, setNonblock)
      ensures errno != Ok ==> Files() == old(Files())
      ensures errno == Ok ==> Succeeds(old(Files()), Open(fd, FileEntry("", false, conn.file)), Files())
      ensures closes == old(closes) + if errno != Ok && Accepted(old(Files()), sockFD, conn) then [conn.file] else []
    {
      var e, ok := LookupFile(sockFD);
      if !ok || !e.isPreopen {
        return 0, EBADF;
      } else if !e.file.isTCPSock {
        return 0, EBADF;
      }
      if conn.Failed? {
        return 0, conn.errno;
      }
      fd, errno := Admit(conn.file, nonblock, setNonblock);
    }

    /** Puts an accepted connection into the table, or closes it. */
    method Admit(conn: File, nonblock: bool, setNonblock: Errno) returns (fd: int, errno: Errno)
      requires Valid()
      modifies this, openedFiles
      ensures Valid()
      ensures errno == AdmitErrno(old(Files()), nonblock, conn, setNonblock)
      ensures errno != Ok ==> Files() == old(Files()) && closes == old(closes) + [conn]
      ensures errno == Ok ==>
                closes == old(closes) && Succeeds(old(Files()), Open(fd, FileEntry("", false, conn)), Files())
    {
      var n := openedFiles.Len();
      if n >= MAX_FILE_DESCRIPTOR {
        closes := closes + [conn];
        return 0, EMFILE;
      }
      if nonblock && conn.isPollable && setNonblock != Ok {
        closes := closes + [conn];
        return 0, setNonblock;
      }
      fd, errno := Insert(FileEntry("", false, conn));
    }

    /** CloseFile: `closing` is the host's answer; a file that fails to close stays open. */
    method CloseFile(fd: int, closing: Errno) returns (errno: Errno)
      requires Valid()
      modifies this, openedFiles
      ensures Valid()
      ensures errno == if fd in old(Files()) then closing else EBADF
      ensures errno != Ok ==> Files() == old(Files())
      ensures errno == Ok ==> Succeeds(old(Files()), Close(fd), Files())
      ensures closes == old(closes) + if fd in old(Files()) then [old(Files())[fd].file] else []
    {
      var f, ok := openedFiles.Lookup(fd);
      if !ok {
        return EBADF;
      }
      closes := closes + [f.file];
      if closing != Ok {
        return closing;
      }
      openedFiles.Delete(fd);
      return Ok;
    }
  }

  /** A connection has been taken from the listener. */
  predicate Accepted(m: Files, sockFD: int, conn: Opened)
    requires Bounded(m)
  {
    sockFD in m && m[sockFD].isPreopen && m[sockFD].file.isTCPSock && conn.Opened?
  }

  function AcceptErrno(m: Files, sockFD: int, nonblock: bool, conn: Opened, setNonblock: Errno): Errno
    requires Bounded(m)
  {
    if sockFD !in m || !m[sockFD].isPreopen || !m[sockFD].file.isTCPSock then EBADF
    else if conn.Failed? then conn.errno
    else AdmitErrno(m, nonblock, conn.file, setNonblock)
  }

  function AdmitErrno(m: Files, nonblock: bool, conn: File, setNonblock: Errno): Errno {
    if |m| >= MAX_FILE_DESCRIPTOR then EMFILE else if nonblock && conn.isPollable then setNonblock else Ok
  }

  // Whole runs

  /** A call that succeeds, as the methods above change the files. */
  datatype Call =
    | Open(fd: int, entry: FileEntry)
    | Renumber(from: int, to: int)
    | Close(fd: int)

  /** OpenFile and SockAccept insert what is not a preopen, at the least free descriptor. */
  ghost predicate Enabled(m: Files, c: Call) {
    match c
    case Open(fd, entry) => |m| < MAX_FILE_DESCRIPTOR && Takes(m, fd) && entry.FileEntry? && !entry.isPreopen
    case Renumber(from, to) => Bounded(m) && RenumberErrno(m, from, to) == Ok
    case Close(fd) => fd in m
  }

  function Apply(m: Files, c: Call): Files {
    match c
    case Open(fd, entry) => m[fd := entry]
    case Renumber(from, to) => if from in m then Renumbered(m, from, to) else m
    case Close(fd) => m - {fd}
  }

  /** A call that succeeds takes `m` to `m'`. */
  ghost predicate Succeeds(m: Files, c: Call, m': Files) {
    Enabled(m, c) && m' == Apply(m, c)
  }

  ghost predicate Run(m: Files, calls: seq<Call>)
    decreases |calls|
  {
    calls == [] || (Enabled(m, calls[0]) && Run(Apply(m, calls[0]), calls[1..]))
  }

  function After(m: Files, calls: seq<Call>): Files
    decreases |calls|
  {
    if calls == [] then m else After(Apply(m, calls[0]), calls[1..])
  }

  lemma CallKeepsBound(m: Files, c: Call)
    requires Bounded(m) && Enabled(m, c)
    ensures Bounded(Apply(m, c))
  {
  }

  /** No run opens a descriptor beyond the bound, so Insert always has room in its int32 keys. */
  lemma {:induction false} RunKeepsBound(m: Files, calls: seq<Call>)
    requires Bounded(m) && Run(m, calls)
    ensures Bounded(After(m, calls)) && |After(m, calls)| <= MAX_FILE_DESCRIPTOR + 1
    decreases |calls|
  {
    if calls == [] {
      BoundedSize(m);
    } else {
      CallKeepsBound(m, calls[0]);
      RunKeepsBound(Apply(m, calls[0]), calls[1..]);
    }
  }

  /** Until it is closed itself, a preopen keeps its descriptor and its file, whatever is opened,
      accepted, renumbered or closed. */
  lemma {:induction false} PreopensStay(m: Files, calls: seq<Call>, fd: int)
    requires Bounded(m) && Run(m, calls) && fd in m && m[fd].isPreopen
    requires Close(fd) !in calls
    ensures fd in After(m, calls) && After(m, calls)[fd] == m[fd]
    decreases |calls|
  {
    if calls != [] {
      assert calls[0] in calls && calls[0] != Close(fd);
      CallKeepsBound(m, calls[0]);
      PreopensStay(Apply(m, calls[0]), calls[1..], fd);
    }
  }

  /** No run makes a preopen. */
  lemma {:induction false} NoNewPreopens(m: Files, calls: seq<Call>, fd: int)
    requires Bounded(m) && Run(m, calls)
    requires fd in After(m, calls) && After(m, calls)[fd].FileEntry? && After(m, calls)[fd].isPreopen
    ensures fd in m && m[fd] == After(m, calls)[fd]
    decreases |calls|
  {
    if calls != [] {
      CallKeepsBound(m, calls[0]);
      NoNewPreopens(Apply(m, calls[0]), calls[1..], fd);
    }
  }

  /** The calls that move or close what is open at `fd`, or put another file there. */
  predicate Touches(c: Call, fd: int) {
    match c
    case Open(_, _) => false
    case Renumber(from, to) => from == fd || to == fd
    case Close(closed) => closed == fd
  }

  /** Whatever else is opened, accepted, renumbered or closed, a file stays open under its descriptor
      until a call names that descriptor; in particular no new file ever takes its place. */
  lemma {:induction false} UntouchedStays(m: Files, calls: seq<Call>, fd: int)
    requires Run(m, calls) && fd in m && forall c :: c in calls ==> !Touches(c, fd)
    ensures fd in After(m, calls) && After(m, calls)[fd] == m[fd]
    decreases |calls|
  {
    if calls != [] {
      assert calls[0] in calls && !Touches(calls[0], fd);
      UntouchedStays(Apply(m, calls[0]), calls[1..], fd);
    }
  }
}
