/** The sixteen requests and responses and what stands for them on the wire (madbfs-common/src/rpc.cpp). */
module Rpc {
  import opened Bytes
  import opened Wire

  datatype Proc =
    | Stat | Listdir | Readlink | Mknod | Mkdir | Unlink | Rmdir | Rename
    | Truncate | Utimens | CopyFileRange | Open | Close | Read | Write | Ping

  type Name = seq<byte>

  datatype Time = Time(sec: int, nsec: int)

  datatype Request =
    | Stat(path: Name)
    | Listdir(path: Name)
    | Readlink(path: Name)
    | Mknod(path: Name, mode: int, dev: int)
    | Mkdir(path: Name, mode: int)
    | Unlink(path: Name)
    | Rmdir(path: Name)
    | Rename(from: Name, to: Name, flags: int)
    | Truncate(path: Name, size: int)
    | Utimens(path: Name, atime: Time, mtime: Time)
    | CopyFileRange(inPath: Name, inOffset: int, outPath: Name, outOffset: int, size: int)
    | Open(path: Name, mode: int)
    | Close(fd: int)
    | Read(fd: int, offset: int, size: int)
    | Write(fd: int, offset: int, data: seq<byte>)
    | Ping(num: int)

  datatype FileStat = FileStat(size: int, links: int, mtime: Time, atime: Time, ctime: Time, mode: int, uid: int,
                               gid: int)

  datatype Entry = Entry(name: Name, stat: FileStat)

  datatype Response =
    | Stat(stat: FileStat)
    | Listdir(entries: seq<Entry>)
    | Readlink(target: Name)
    | Mknod | Mkdir | Unlink | Rmdir | Rename | Truncate | Utimens
    | CopyFileRange(size: int)
    | Open(fd: int)
    | Close
    | Read(data: seq<byte>)
    | Write(size: int)
    | Ping(num: int)

  function Code(p: Proc): (c: nat)
    ensures c < 16
  {
    match p
    case Stat => 0
    case Listdir => 1
    case Readlink => 2
    case Mknod => 3
    case Mkdir => 4
    case Unlink => 5
    case Rmdir => 6
    case Rename => 7
    case Truncate => 8
    case Utimens => 9
    case CopyFileRange => 10
    case Open => 11
    case Close => 12
    case Read => 13
    case Write => 14
    case Ping => 15
  }

  const PROCS: seq<Proc> :=
    [Proc.Stat, Proc.Listdir, Proc.Readlink, Proc.Mknod, Proc.Mkdir, Proc.Unlink, Proc.Rmdir, Proc.Rename,
     Proc.Truncate, Proc.Utimens, Proc.CopyFileRange, Proc.Open, Proc.Close, Proc.Read, Proc.Write, Proc.Ping]

  /** `read_procedure`: nothing for a number that is no procedure. */
  function ProcOf(code: int): (p: Option<Proc>)
    ensures forall q | Code(q) == code :: p == Some(q)
    ensures p.Some? ==> Code(p.value) == code
  {
    if 0 <= code < 16 then Some(PROCS[code]) else None
  }

  function RequestProc(r: Request): Proc {
    match r
    case Stat(_) => Proc.Stat
    case Listdir(_) => Proc.Listdir
    case Readlink(_) => Proc.Readlink
    case Mknod(_, _, _) => Proc.Mknod
    case Mkdir(_, _) => Proc.Mkdir
    case Unlink(_) => Proc.Unlink
    case Rmdir(_) => Proc.Rmdir
    case Rename(_, _, _) => Proc.Rename
    case Truncate(_, _) => Proc.Truncate
    case Utimens(_, _, _) => Proc.Utimens
    case CopyFileRange(_, _, _, _, _) => Proc.CopyFileRange
    case Open(_, _) => Proc.Open
    case Close(_) => Proc.Close
    case Read(_, _, _) => Proc.Read
    case Write(_, _, _) => Proc.Write
    case Ping(_) => Proc.Ping
  }

  function ResponseProc(r: Response): Proc {
    match r
    case Stat(_) => Proc.Stat
    case Listdir(_) => Proc.Listdir
    case Readlink(_) => Proc.Readlink
    case Mknod => Proc.Mknod
    case Mkdir => Proc.Mkdir
    case Unlink => Proc.Unlink
    case Rmdir => Proc.Rmdir
    case Rename => Proc.Rename
    case Truncate => Proc.Truncate
    case Utimens => Proc.Utimens
    case CopyFileRange(_) => Proc.CopyFileRange
    case Open(_) => Proc.Open
    case Close => Proc.Close
    case Read(_) => Proc.Read
    case Write(_) => Proc.Write case Ping(_) => Proc.Ping
  }

  // The C++ types of the fields.

  predicate TextOk(n: Name) { |n| + 1 < LIMIT64 }

  predicate TimeOk(t: Time) { InRange(I64, t.sec) && InRange(I64, t.nsec) }

  predicate StatOk(s: FileStat) {
    && InRange(I64, s.size) && InRange(U64, s.links) && TimeOk(s.mtime) && TimeOk(s.atime) && TimeOk(s.ctime)
    && InRange(U32, s.mode) && InRange(U32, s.uid) && InRange(U32, s.gid)
  }

  predicate EntryOk(e: Entry) { TextOk(e.name) && StatOk(e.stat) }

  predicate RequestOk(r: Request) {
    match r
    case Stat(p) => TextOk(p)
    case Listdir(p) => TextOk(p)
    case Readlink(p) => TextOk(p)
    case Mknod(p, mode, dev) => TextOk(p) && InRange(U32, mode) && InRange(U64, dev)
    case Mkdir(p, mode) => TextOk(p) && InRange(U32, mode)
    case Unlink(p) => TextOk(p)
    case Rmdir(p) => TextOk(p)
    case Rename(from, to, flags) => TextOk(from) && TextOk(to) && InRange(U32, flags)
    case Truncate(p, size) => TextOk(p) && InRange(I64, size)
    case Utimens(p, a, m) => TextOk(p) && TimeOk(a) && TimeOk(m)
    case CopyFileRange(i, io, o, oo, size) => TextOk(i) && InRange(I64, io) && TextOk(o) && InRange(I64, oo)
        && InRange(U64, size)
    case Open(p, mode) => TextOk(p) && InRange(U8, mode)
    case Close(fd) => InRange(U64, fd)
    case Read(fd, offset, size) => InRange(U64, fd) && InRange(I64, offset) && InRange(U64, size)
    case Write(fd, offset, data) => InRange(U64, fd) && InRange(I64, offset) && |data| < LIMIT64
    case Ping(num) => InRange(U64, num)
  }

  predicate ResponseOk(r: Response) {
    match r
    case Stat(s) => StatOk(s)
    case Listdir(es) => |es| < LIMIT64 && forall e | e in es :: EntryOk(e)
    case Readlink(t) => TextOk(t)
    case CopyFileRange(size) => InRange(U64, size)
    case Open(fd) => InRange(U64, fd)
    case Read(data) => |data| < LIMIT64
    case Write(size) => InRange(U64, size)
    case Ping(num) => InRange(U64, num)
    case _ => true
  }

  // Requests.

  function Of1<T>(a: T): List<T> { Cons(a, Nil) }
  function Of2<T>(a: T, b: T): List<T> { Cons(a, Cons(b, Nil)) }
  function Of3<T>(a: T, b: T, c: T): List<T> { Cons(a, Cons(b, Cons(c, Nil))) }
  function Of5<T>(a: T, b: T, c: T, d: T, e: T): List<T> { Cons(a, Cons(b, Of3(c, d, e))) }

  // What three or five fields are, one lemma for each length.

  lemma {:induction false} List2(a: Field, b: Field)
    ensures Kinds(Of2(a, b)) == Of2(KindOf(a), KindOf(b))
    ensures Fits(a) && Fits(b) ==> AllFit(Of2(a, b))
  {
    assert Kinds(Cons(b, Nil)) == Cons(KindOf(b), Nil);
  }

  lemma {:induction false} List3(a: Field, b: Field, c: Field, fs: List<Field>)
    ensures Kinds(Cons(a, Cons(b, Cons(c, fs)))) == Cons(KindOf(a), Cons(KindOf(b), Cons(KindOf(c), Kinds(fs))))
    ensures Fits(a) && Fits(b) && Fits(c) && AllFit(fs) ==> AllFit(Cons(a, Cons(b, Cons(c, fs))))
  {
    assert AllFit(Cons(c, fs)) == (Fits(c) && AllFit(fs));
    assert Kinds(Cons(c, fs)) == Cons(KindOf(c), Kinds(fs));
  }

  lemma {:induction false} List5(a: Field, b: Field, c: Field, d: Field, e: Field)
    ensures Kinds(Of5(a, b, c, d, e)) == Of5(KindOf(a), KindOf(b), KindOf(c), KindOf(d), KindOf(e))
    ensures Fits(a) && Fits(b) && Fits(c) && Fits(d) && Fits(e) ==> AllFit(Of5(a, b, c, d, e))
  {
    List3(c, d, e, Nil);
  }

  function U(n: int): Field { Number(U64, n) }
  function I(n: int): Field { Number(I64, n) }
  function M(n: int): Field { Number(U32, n) }

  /** What `build_request` writes, in order. */
  function RequestFields(r: Request): List<Field> {
    match r
    case Stat(p) => Of1(Text(p))
    case Listdir(p) => Of1(Text(p))
    case Readlink(p) => Of1(Text(p))
    case Mknod(p, mode, dev) => Of3(Text(p), M(mode), U(dev))
    case Mkdir(p, mode) => Of2(Text(p), M(mode))
    case Unlink(p) => Of1(Text(p))
    case Rmdir(p) => Of1(Text(p))
    case Rename(from, to, flags) => Of3(Text(from), Text(to), M(flags))
    case Truncate(p, size) => Of2(Text(p), I(size))
    case Utimens(p, a, m) => Of5(Text(p), I(a.sec), I(a.nsec), I(m.sec), I(m.nsec))
    case CopyFileRange(i, io, o, oo, size) => Of5(Text(i), I(io), Text(o), I(oo), U(size))
    case Open(p, mode) => Of2(Text(p), Number(U8, mode))
    case Close(fd) => Of1(U(fd))
    case Read(fd, offset, size) => Of3(U(fd), I(offset), U(size))
    case Write(fd, offset, data) => Of3(U(fd), I(offset), Blob(data))
    case Ping(num) => Of1(U(num))
  }

  const K64 := Integer(U64)
  const S64 := Integer(I64)
  const K32 := Integer(U32)

  /** What `parse_request` reads, in order. */
  function RequestKinds(p: Proc): List<Kind> {
    match p
    case Stat => Of1(Path)
    case Listdir => Of1(Path)
    case Readlink => Of1(Path)
    case Mknod => Of3(Path, K32, K64)
    case Mkdir => Of2(Path, K32)
    case Unlink => Of1(Path)
    case Rmdir => Of1(Path)
    case Rename => Of3(Path, Path, K32)
    case Truncate => Of2(Path, S64)
    case Utimens => Of5(Path, S64, S64, S64, S64)
    case CopyFileRange => Of5(Path, S64, Path, S64, K64)
    case Open => Of2(Path, Integer(U8))
    case Close => Of1(K64)
    case Read => Of3(K64, S64, K64)
    case Write => Of3(K64, S64, Bytes)
    case Ping => Of1(K64)
  }

  /** What `parse_request` makes of the fields it has read. */
  function AssembleRequest(p: Proc, fs: List<Field>): Option<Request> {
    match p
    case Stat => (match fs case Cons(Text(path), Nil) => Some(Request.Stat(path)) case _ => None)
    case Listdir => (match fs case Cons(Text(path), Nil) => Some(Request.Listdir(path)) case _ => None)
    case Readlink => (match fs case Cons(Text(path), Nil) => Some(Request.Readlink(path)) case _ => None)
    case Mknod =>
      (match fs
       case Cons(Text(path), Cons(Number(_, mode), Cons(Number(_, dev), Nil))) => Some(Request.Mknod(path, mode, dev))
       case _ => None)
    case Mkdir =>
      (match fs
       case Cons(Text(path), Cons(Number(_, mode), Nil)) => Some(Request.Mkdir(path, mode))
       case _ => None)
    case Unlink => (match fs case Cons(Text(path), Nil) => Some(Request.Unlink(path)) case _ => None)
    case Rmdir => (match fs case Cons(Text(path), Nil) => Some(Request.Rmdir(path)) case _ => None)
    case Rename =>
      (match fs
       case Cons(Text(from), Cons(Text(to), Cons(Number(_, flags), Nil))) => Some(Request.Rename(from, to, flags))
       case _ => None)
    case Truncate =>
      (match fs
       case Cons(Text(path), Cons(Number(_, size), Nil)) => Some(Request.Truncate(path, size))
       case _ => None)
    case Utimens =>
      (match fs
       case Cons(Text(path), Cons(Number(_, asec),
           Cons(Number(_, ansec), Cons(Number(_, msec), Cons(Number(_, mnsec), Nil))))) =>
               Some(Request.Utimens(path, Time(asec, ansec), Time(msec, mnsec)))
       case _ => None)
    case CopyFileRange =>
      (match fs
       case Cons(Text(i), Cons(Number(_, io), Cons(Text(o), Cons(Number(_, oo), Cons(Number(_, size), Nil))))) =>
           Some(Request.CopyFileRange(i, io, o, oo, size))
       case _ => None)
    case Open =>
      (match fs
       case Cons(Text(path), Cons(Number(_, mode), Nil)) => Some(Request.Open(path, mode))
       case _ => None)
    case Close => (match fs case Cons(Number(_, fd), Nil) => Some(Request.Close(fd)) case _ => None)
    case Read =>
      (match fs
       case Cons(Number(_, fd), Cons(Number(_, offset), Cons(Number(_, size), Nil))) =>
           Some(Request.Read(fd, offset, size))
       case _ => None)
    case Write =>
      (match fs
       case Cons(Number(_, fd), Cons(Number(_, offset), Cons(Blob(data), Nil))) => Some(Request.Write(fd, offset, data))
       case _ => None)
    case Ping => (match fs case Cons(Number(_, num), Nil) => Some(Request.Ping(num)) case _ => None)
  }

  function RequestPayload(r: Request): seq<byte> { Encode(RequestFields(r)) }

  function ParseRequest(p: Proc, payload: seq<byte>): Option<Request> {
    match Decode(RequestKinds(p), payload)
    case None => None
    case Some((fs, _)) => AssembleRequest(p, fs)
  }

  lemma {:induction false} RequestLayout(r: Request)
    ensures RequestOk(r) ==> AllFit(RequestFields(r))
    ensures Kinds(RequestFields(r)) == RequestKinds(RequestProc(r))
    ensures AssembleRequest(RequestProc(r), RequestFields(r)) == Some(r)
  {
    match r
    case Utimens(_, _, _) => LongRequestLayout(r);
    case CopyFileRange(_, _, _, _, _) => LongRequestLayout(r);
    case Mknod(p, mode, dev) => List3(Text(p), M(mode), U(dev), Nil);
    case Rename(from, to, flags) => List3(Text(from), Text(to), M(flags), Nil);
    case Read(fd, offset, size) => List3(U(fd), I(offset), U(size), Nil);
    case Write(fd, offset, data) => List3(U(fd), I(offset), Blob(data), Nil);
    case Mkdir(p, mode) => List2(Text(p), M(mode));
    case Truncate(p, size) => List2(Text(p), I(size));
    case Open(p, mode) => List2(Text(p), Number(U8, mode));
    case _ =>
  }

  lemma {:induction false} LongRequestLayout(r: Request)
    requires r.Utimens? || r.CopyFileRange?
    ensures RequestOk(r) ==> AllFit(RequestFields(r))
    ensures Kinds(RequestFields(r)) == RequestKinds(RequestProc(r))
    ensures AssembleRequest(RequestProc(r), RequestFields(r)) == Some(r)
  {
    match r
    case Utimens(p, a, m) => List5(Text(p), I(a.sec), I(a.nsec), I(m.sec), I(m.nsec));
    case CopyFileRange(i, io, o, oo, size) => List5(Text(i), I(io), Text(o), I(oo), U(size));
  }

  /** Parsing a request's payload for its procedure gives the request back. */
  lemma {:induction false} RequestRoundTrip(r: Request)
    requires RequestOk(r)
    ensures ParseRequest(RequestProc(r), RequestPayload(r)) == Some(r)
  {
    RequestLayout(r);
    RoundTrip(RequestFields(r), []);
    assert Encode(RequestFields(r)) + [] == RequestPayload(r);
  }

  // Responses.

  function StatFields(s: FileStat): List<Field> {
    Cons(I(s.size), Cons(U(s.links), Cons(I(s.mtime.sec), StatFields2(s))))
  }

  function StatFields2(s: FileStat): List<Field> {
    Cons(I(s.mtime.nsec), Cons(I(s.atime.sec),
        Cons(I(s.atime.nsec), Of5(I(s.ctime.sec), I(s.ctime.nsec), M(s.mode), M(s.uid), M(s.gid)))))
  }

  const STAT: List<Kind> :=
      Cons(S64, Cons(K64, Cons(S64, Cons(S64, Cons(S64, Cons(S64, Of5(S64, S64, K32, K32, K32)))))))

  function AssembleStat(fs: List<Field>): Option<FileStat> {
    match fs
    case Cons(Number(_, size),
        Cons(Number(_, links), Cons(Number(_, msec), Cons(Number(_, mnsec), Cons(Number(_, asec), Cons(Number(_, ansec),
         Cons(Number(_, csec), Cons(Number(_, cnsec),
             Cons(Number(_, mode), Cons(Number(_, uid), Cons(Number(_, gid), Nil))))))))))) =>
      Some(FileStat(size, links, Time(msec, mnsec), Time(asec, ansec), Time(csec, cnsec), mode, uid, gid))
    case _ => None
  }

  lemma {:induction false} StatLayout(s: FileStat)
    ensures StatOk(s) ==> AllFit(StatFields(s))
    ensures Kinds(StatFields(s)) == STAT
    ensures AssembleStat(StatFields(s)) == Some(s)
  {
    List5(I(s.ctime.sec), I(s.ctime.nsec), M(s.mode), M(s.uid), M(s.gid));
    List3(I(s.mtime.nsec), I(s.atime.sec), I(s.atime.nsec),
        Of5(I(s.ctime.sec), I(s.ctime.nsec), M(s.mode), M(s.uid), M(s.gid)));
    List3(I(s.size), U(s.links), I(s.mtime.sec), StatFields2(s));
  }

  function EntryFields(e: Entry): List<Field> { Cons(Text(e.name), StatFields(e.stat)) }

  const ENTRY: List<Kind> := Cons(Path, STAT)

  function AssembleEntry(fs: List<Field>): Option<Entry> {
    match fs
    case Cons(Text(name), rest) => (match AssembleStat(rest) case Some(s) => Some(Entry(name, s)) case None => None)
    case _ => None
  }

  /** The entries of a listing, one after the other. */
  function EncodeEntries(es: seq<Entry>): seq<byte> {
    if es == [] then [] else EncodeEntries(es[..|es| - 1]) + Encode(EntryFields(es[|es| - 1]))
  }

  function DecodeEntry(buf: seq<byte>): Option<(Entry, seq<byte>)> {
    match Decode(ENTRY, buf)
    case None => None
    case Some((fs, rest)) => match AssembleEntry(fs) case None => None case Some(e) => Some((e, rest))
  }

  function DecodeEntries(n: nat, buf: seq<byte>): (r: Option<(seq<Entry>, seq<byte>)>)
    ensures r.Some? ==> |r.value.0| == n
  {
    if n == 0 then Some(([], buf))
    else
      match DecodeEntries(n - 1, buf)
      case None => None
      case Some((es, rest)) =>
        match DecodeEntry(rest) case None => None case Some((e, end)) => Some((es + [e], end))
  }

  lemma {:induction false} EntryRoundTrip(e: Entry, tail: seq<byte>)
    requires EntryOk(e)
    ensures DecodeEntry(Encode(EntryFields(e)) + tail) == Some((e, tail))
  {
    EntryLayout(e);
    RoundTrip(EntryFields(e), tail);
  }

  lemma {:induction false} EntryLayout(e: Entry)
    ensures EntryOk(e) ==> AllFit(EntryFields(e))
    ensures Kinds(EntryFields(e)) == ENTRY
    ensures AssembleEntry(EntryFields(e)) == Some(e)
  {
    StatLayout(e.stat);
  }

  lemma {:induction false} DecodeEntriesNext(n: nat, buf: seq<byte>, es: seq<Entry>, rest: seq<byte>, e: Entry,
                                             end: seq<byte>)
    requires DecodeEntries(n, buf) == Some((es, rest)) && DecodeEntry(rest) == Some((e, end))
    ensures DecodeEntries(n + 1, buf) == Some((es + [e], end))
  {
  }

  lemma {:induction false} EntriesRoundTrip(es: seq<Entry>, tail: seq<byte>)
    requires forall e | e in es :: EntryOk(e)
    ensures DecodeEntries(|es|, EncodeEntries(es) + tail) == Some((es, tail))
  {
    if es == [] {
      assert EncodeEntries(es) + tail == tail;
    } else {
      var front, e := es[..|es| - 1], es[|es| - 1];
      assert es == front + [e];
      var last := Encode(EntryFields(e));
      var rest := last + tail;
      assert EncodeEntries(es) + tail == EncodeEntries(front) + rest by {
        Assoc(EncodeEntries(front), last, tail);
      }
      EntriesRoundTrip(front, rest);
      assert DecodeEntry(rest) == Some((e, tail)) by {
        EntryRoundTrip(e, tail);
      }
      DecodeEntriesNext(|front|, EncodeEntries(front) + rest, front, rest, e, tail);
    }
  }

  /** What `build_response` writes for a response that is not a listing. */
  function ResponseFields(r: Response): List<Field>
    requires !r.Listdir?
  {
    match r
    case Stat(s) => StatFields(s)
    case Readlink(t) => Of1(Text(t))
    case CopyFileRange(size) => Of1(U(size))
    case Open(fd) => Of1(U(fd))
    case Read(data) => Of1(Blob(data))
    case Write(size) => Of1(U(size))
    case Ping(num) => Of1(U(num))
    case _ => Nil
  }

  function ResponseKinds(p: Proc): List<Kind> {
    match p
    case Stat => STAT
    case Readlink => Of1(Path)
    case CopyFileRange => Of1(K64)
    case Open => Of1(K64)
    case Read => Of1(Bytes)
    case Write => Of1(K64)
    case Ping => Of1(K64)
    case _ => Nil
  }

  /** What `parse_response` makes of the fields: a read gets no more than its request has room for. */
  function AssembleResponse(req: Request, fs: List<Field>): Option<Response>
    requires !req.Listdir?
  {
    match req
    case Stat(_) => (match AssembleStat(fs) case Some(s) => Some(Response.Stat(s)) case None => None)
    case Readlink(_) => (match fs case Cons(Text(t), Nil) => Some(Response.Readlink(t)) case _ => None)
    case Mknod(_, _, _) => Some(Response.Mknod)
    case Mkdir(_, _) => Some(Response.Mkdir)
    case Unlink(_) => Some(Response.Unlink)
    case Rmdir(_) => Some(Response.Rmdir)
    case Rename(_, _, _) => Some(Response.Rename)
    case Truncate(_, _) => Some(Response.Truncate)
    case Utimens(_, _, _) => Some(Response.Utimens)
    case CopyFileRange(_, _, _, _, _) =>
        (match fs case Cons(Number(_, n), Nil) => Some(Response.CopyFileRange(n)) case _ => None)
    case Open(_, _) => (match fs case Cons(Number(_, n), Nil) => Some(Response.Open(n)) case _ => None)
    case Close(_) => Some(Response.Close)
    case Read(_, _, size) =>
        (match fs case Cons(Blob(d), Nil) => Some(Response.Read(d[..Max(0, Min(|d|, size))])) case _ => None)
    case Write(_, _, _) => (match fs case Cons(Number(_, n), Nil) => Some(Response.Write(n)) case _ => None)
    case Ping(_) => (match fs case Cons(Number(_, n), Nil) => Some(Response.Ping(n)) case _ => None)
  }

  function ResponsePayload(r: Response): seq<byte> {
    if r.Listdir? then EncodeInt(U64, |r.entries|) + EncodeEntries(r.entries) else Encode(ResponseFields(r))
  }

  function ParseListing(payload: seq<byte>): Option<Response> {
    match ReadInt(U64, payload)
    case None => None
    case Some((n, rest)) => match DecodeEntries(n, rest)
    case None => None
    case Some((es, _)) => Some(Response.Listdir(es))
  }

  function ParseResponse(req: Request, payload: seq<byte>): Option<Response> {
    if req.Listdir? then ParseListing(payload)
    else
      match Decode(ResponseKinds(RequestProc(req)), payload)
      case None => None
      case Some((fs, _)) => AssembleResponse(req, fs)
  }

  /** The response as the caller of a request gets it. */
  function Delivered(req: Request, resp: Response): Response {
    if req.Read? && resp.Read? then Response.Read(resp.data[..Max(0, Min(|resp.data|, req.size))]) else resp
  }

  lemma {:induction false} ResponseLayout(req: Request, r: Response)
    requires !r.Listdir? && ResponseProc(r) == RequestProc(req)
    ensures ResponseOk(r) ==> AllFit(ResponseFields(r))
    ensures Kinds(ResponseFields(r)) == ResponseKinds(RequestProc(req))
    ensures AssembleResponse(req, ResponseFields(r)) == Some(Delivered(req, r))
  {
    if r.Stat? {
      StatLayout(r.stat);
    }
  }

  lemma {:induction false} ListingRoundTrip(r: Response)
    requires r.Listdir? && ResponseOk(r)
    ensures ParseListing(ResponsePayload(r)) == Some(r)
  {
    IntRoundTrip(U64, |r.entries|, EncodeEntries(r.entries));
    EntriesRoundTrip(r.entries, []);
    assert EncodeEntries(r.entries) + [] == EncodeEntries(r.entries);
  }

  /** Parsing a response's payload for a request of its procedure gives the response back, cut to a read's buffer. */
  lemma {:induction false} ResponseRoundTrip(req: Request, r: Response)
    requires ResponseOk(r) && ResponseProc(r) == RequestProc(req)
    ensures ParseResponse(req, ResponsePayload(r)) == Some(Delivered(req, r))
  {
    if r.Listdir? {
      ListingRoundTrip(r);
    } else {
      ResponseLayout(req, r);
      RoundTrip(ResponseFields(r), []);
      assert Encode(ResponseFields(r)) + [] == ResponsePayload(r);
    }
  }

  /** The response arrives as it was sent exactly when it is not a read longer than the buffer it was requested for. */
  lemma {:induction false} ResponseExact(req: Request, r: Response)
    requires RequestOk(req) && ResponseOk(r) && ResponseProc(r) == RequestProc(req)
    ensures ParseResponse(req, ResponsePayload(r)) == Some(r) <==> (req.Read? ==> |r.data| <= req.size)
  {
    ResponseRoundTrip(req, r);
    if req.Read? && |r.data| <= req.size {
      assert r.data[..|r.data|] == r.data;
    }
  }
}
