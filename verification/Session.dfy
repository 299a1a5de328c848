/** Whole sessions of the daemon: every interleaving of requests behaves as plain files and names would. */
module Session {
  import opened Geometry
  import opened VolumeState
  import opened Alloc
  import opened Dir
  import opened Tree
  import opened Mirror
  import opened Run
  import opened Steps
  import opened Namespace
  import opened Removal
  import opened Mount
  import opened Veiled

  datatype Request =
    | OpenFile(ino: nat)
    | CreateFile(parent: nat, name: Name, kind: FileType)
    | ReadAt(ino: nat, offset: nat, size: nat)
    | WriteAt(ino: nat, offset: nat, part: seq<byte>)
    | SetLength(ino: nat, size: nat)
    | Flush(ino: nat)
    | Close(ino: nat, fh: nat)
    | Change(op: Op)

  datatype Reply = Opened(fh: nat) | Created(ino: nat, fh: nat) | Bytes(data: seq<byte>) | Count(n: nat) | Done

  /** Plain files: a namespace whose files are byte sequences, and open handles; no disk and no buffers. */
  datatype Plain = Plain(names: Tree, handles: map<nat, nat>)

  /** What plain files answer to a request. */
  ghost predicate Answers(p: Plain, q: Request, a: Reply, p': Plain) {
    var files := p.names.bytes;
    match q
    case OpenFile(n) => n in files && a.Opened? && a.fh !in p.handles && p' == p.(handles := p.handles[a.fh := n])
    case CreateFile(d, name, kind) =>
      && a.Created? && a.fh !in p.handles && Vacant(p.names, d, name) && a.ino !in p.names.kinds
      && p' == Plain(NewFile(p.names, d, name, a.ino, kind, []), p.handles[a.fh := a.ino])
    case ReadAt(n, offset, size) => n in files && a == Bytes(Window(files[n], offset, size)) && p' == p
    case WriteAt(n, offset, part) =>
      n in files && n in p.handles.Values && a == Count(|part|) && p' == p.(names := Rewrite(p.names, n, Mount.Written(files[n], offset, part)))
    case SetLength(n, size) => n in files && a == Done && p' == p.(names := Rewrite(p.names, n, Resized(files[n], size)))
    case Flush(n) => n in files && a == Done && p' == p
    case Close(n, fh) => fh in p.handles && p.handles[fh] == n && a == Done && p' == p.(handles := p.handles - {fh})
    case Change(op) => a == Done && p'.handles == p.handles && exists w: Tree :: Step(p.names, op, w) && p'.names == w.(devices := map[])
  }

  /** Why a request fails: the kernel would not have sent it, the mount is read-only, an open file would lose its
      last name, or the disk stands in the way. */
  ghost predicate Hindered(v: Vol, readOnly: bool, p: Plain, q: Request) {
    var files := p.names.bytes;
    match q
    case OpenFile(n) => n !in files
    case CreateFile(d, name, kind) =>
      readOnly || !Vacant(p.names, d, name) || kind == Unset || kind == Directory || NoSpace(v.g, v.own) || NoInodes(v, p.names)
    case ReadAt(n, _, _) => n !in files
    case WriteAt(n, _, _) => n !in files || n !in p.handles.Values || readOnly
    case SetLength(n, _) => n !in files || readOnly || NoSpace(v.g, v.own)
    case Flush(n) => n !in files || NoSpace(v.g, v.own)
    case Close(n, fh) => (fh in p.handles ==> p.handles[fh] != n) || NoSpace(v.g, v.own)
    case Change(op) => readOnly || op.Resize? || op.Replace? || TakesOpen(p, op) || Obstacle(v, p.names, op)
  }

  /** The operation would take the last name of an open file. */
  ghost predicate TakesOpen(p: Plain, op: Op) { exists n: nat :: n in p.handles.Values && !Spares(p.names, op, n) }

  ghost function Rewrite(t: Tree, n: nat, data: seq<byte>): Tree { t.(bytes := t.bytes[n := data]) }

  ghost function PlainOf(st: State): Plain
    reads st
  {
    Plain(Veil(st.tree, st.buffers), st.handles)
  }

  lemma FilesAre(st: State)
    requires st.Valid()
    ensures st.Files().Keys == st.tree.bytes.Keys
    ensures FsOk(st.vol.View(), st.tree) && (forall fh | fh in st.handles :: st.handles[fh] in st.tree.bytes)
  {
    hide FsOk;
  }

  /** One request about a file that exists. */
  method ServeFile(st: State, q: Request) returns (r: Result<Reply>)
    requires st.Valid() && !q.CreateFile? && !q.Close? && !q.Change? && q.ino in st.tree.bytes
    modifies st, st.vol, st.vol.image
    ensures r.Ok? ==> st.Valid() && Answers(old(PlainOf(st)), q, r.value, PlainOf(st))
    ensures r.Err? ==> Hindered(st.vol.View(), st.readOnly, old(PlainOf(st)), q)
  {
    hide FsOk, BuffersOk, Overlay, Mount.Written, Resized, Window, NoSpace;
    FilesAre(st);
    match q {
      case OpenFile(n) =>
        var fh := st.Open(n);
        return Ok(Opened(fh));
      case ReadAt(n, offset, size) =>
        var data := st.Read(n, offset, size);
        return Ok(Bytes(data));
      case WriteAt(n, offset, part) =>
        var open := st.AnyHandle(n);
        if !open { return Err; }
        var written := st.Write(n, offset, part);
        return if written.Ok? then Ok(Count(written.value)) else Err;
      case SetLength(n, size) =>
        var resized := st.SetSize(n, size);
        return if resized.Ok? then Ok(Done) else Err;
      case Flush(n) =>
        var flushed := st.Commit(n);
        return if flushed.Ok? then Ok(Done) else Err;
    }
  }

  /** One request, refused when the kernel would not have sent it. */
  method Serve(st: State, q: Request) returns (r: Result<Reply>)
    requires st.Valid()
    modifies st, st.vol, st.vol.image
    ensures r.Ok? ==> st.Valid() && Answers(old(PlainOf(st)), q, r.value, PlainOf(st))
    ensures r.Err? ==> Hindered(st.vol.View(), st.readOnly, old(PlainOf(st)), q)
  {
    hide FsOk, BuffersOk, Overlay, Mount.Written, Resized, Window, Obstacle, Spares, NoSpace;
    FilesAre(st);
    if q.CreateFile? {
      var vacant := IsVacant(st.vol, q.parent, q.name, st.tree);
      if !vacant || q.kind == Unset || q.kind == Directory { return Err; }
      ghost var t, b := st.tree, st.buffers;
      var made := st.Create(q.parent, q.name, q.kind);
      if made.Err? { return Err; }
      CreatedNames(t, b, st.buffers, q.parent, q.name, made.value.0, q.kind);
      return Ok(Created(made.value.0, made.value.1));
    }
    if q.Change? {
      var changed := ChangeNames(st, q.op);
      return if changed.Ok? then Ok(Done) else Err;
    }
    if q.Close? {
      if q.fh !in st.handles || st.handles[q.fh] != q.ino { return Err; }
      var released := st.Release(q.ino, q.fh);
      return if released.Ok? then Ok(Done) else Err;
    }
    var file := IsFile(st.vol, q.ino, st.tree);
    if !file { return Err; }
    r := ServeFile(st, q);
  }

  lemma CreatedNames(t: Tree, b: map<nat, FileBuf>, b': map<nat, FileBuf>, d: nat, name: Name, n: nat, kind: FileType)
    requires Overlay(NewFile(t, d, name, n, kind, []).bytes, b') == Overlay(t.bytes, b)[n := []]
    ensures Veil(NewFile(t, d, name, n, kind, []), b') == NewFile(Veil(t, b), d, name, n, kind, [])
  {
    hide Overlay;
    assert Overlay(t.bytes, b)[n := []][n := []] == Overlay(t.bytes, b)[n := []];
    var none: map<nat, seq<nat>> := map[];
    assert (none - {n}) - {n} == none;
  }

  /** The inode a name leads to, if any. */
  method Target(vol: Volume, d: nat, name: Name, ghost t: Tree) returns (r: Option<nat>)
    requires FsOk(vol.View(), t)
    ensures r == if (d, name) in t.links then Some(t.links[(d, name)]) else None
  {
    hide FsOk, Mirrors, TreeOk, LinksMatch;
    FsParts(vol.View(), t);
    if (d, name) in t.links { Named(vol.View(), t, d, name); }
    var directory := IsDirectory(vol, d, t);
    if !directory || !PlainName(name) { return None; }
    r := Find(vol, d, name, t);
  }

  /** The file whose only name this is, if any. */
  method OnlyNameOf(vol: Volume, d: nat, name: Name, ghost t: Tree) returns (r: Option<nat>)
    requires FsOk(vol.View(), t)
    ensures forall n | n in t.bytes :: OnlyName(t, d, name, n) <==> r == Some(n)
    ensures r.Some? ==> r.value in t.bytes
  {
    hide FsOk, Mirrors, TreeOk, LinksMatch, Keys, Refs;
    FsParts(vol.View(), t);
    r := Target(vol, d, name, t);
    if r.None? { return; }
    Named(vol.View(), t, d, name);
    Record(vol.View(), t, r.value);
    if vol.inodes[r.value].kind == Directory { return None; }
    LastName(t, d, name);
    if vol.inodes[r.value].nlink != 1 { return None; }
  }

  /** The file that a removal or a replacing rename would take away, if any. */
  method Doomed(vol: Volume, op: Op, ghost t: Tree) returns (r: Option<nat>)
    requires FsOk(vol.View(), t)
    ensures forall n | n in t.bytes :: !Spares(t, op, n) <==> r == Some(n)
    ensures r.Some? ==> r.value in t.bytes
  {
    hide FsOk, OnlyName;
    match op {
      case RemoveFile(d, name) => r := OnlyNameOf(vol, d, name, t);
      case Rename(d, name, e, to) =>
        var source := Target(vol, d, name, t);
        var target := Target(vol, e, to, t);
        if (d, name) == (e, to) || (source.Some? && source == target) { return None; }
        r := OnlyNameOf(vol, e, to, t);
      case _ => return None;
    }
  }

  /** A namespace request, refused only while it would take the last name of an open file. */
  method ChangeNames(st: State, op: Op) returns (r: Result<()>)
    requires st.Valid()
    modifies st, st.vol, st.vol.image
    ensures r.Ok? ==> st.Valid() && Answers(old(PlainOf(st)), Change(op), Done, PlainOf(st))
    ensures r.Err? ==> Hindered(st.vol.View(), st.readOnly, old(PlainOf(st)), Change(op))
  {
    hide FsOk, BuffersOk, Overlay, Step, Spares, Veil, Obstacle, Answers, Hindered, TakesOpen;
    FilesAre(st);
    ghost var t, u, b := st.tree, st.tree, st.buffers;
    ChangeHindered(st.vol.View(), st.readOnly, t, b, st.handles, op);
    if st.readOnly || op.Resize? || op.Replace? { return Err; }
    var doomed := Doomed(st.vol, op, st.tree);
    if doomed.Some? {
      var open := st.AnyHandle(doomed.value);
      if open { return Err; }
    }
    ghost var v := st.vol.View();
    r, u := Attempt(st.vol, op, st.tree);
    ChangeHindered(st.vol.View(), st.readOnly, t, b, st.handles, op);
    if r.Err? { return; }
    ghost var w := Survives(v, t, op, u, st.handles, st.buffers, st.nextFh, doomed);
    ChangeAnswers(t, u, w, b, st.handles, op);
    st.tree := u;
  }

  lemma ChangeHindered(v: Vol, readOnly: bool, t: Tree, b: map<nat, FileBuf>, handles: map<nat, nat>, op: Op)
    ensures readOnly || op.Resize? || op.Replace? || Obstacle(v, t, op) || (exists n: nat :: n in handles.Values && !Spares(t, op, n)) ==>
              Hindered(v, readOnly, Plain(Veil(t, b), handles), Change(op))
  {
    hide Obstacle, Spares, Veil;
    if Obstacle(v, t, op) { ObstacleVeiled(v, t, op, b); }
    forall n: nat | n in handles.Values ensures Spares(Veil(t, b), op, n) <==> Spares(t, op, n) { VeilSpares(t, op, n, b); }
  }

  lemma ChangeAnswers(t: Tree, u: Tree, w: Tree, b: map<nat, FileBuf>, handles: map<nat, nat>, op: Op)
    requires Step(Veil(t, b), op, w) && w.(devices := map[]) == Veil(u, b)
    ensures Answers(Plain(Veil(t, b), handles), Change(op), Done, Plain(Veil(u, b), handles))
  {
    hide Step, Veil;
  }

  lemma Survives(v: Vol, t: Tree, op: Op, u: Tree, handles: map<nat, nat>, buffers: map<nat, FileBuf>, next: nat, doomed: Option<nat>)
    returns (w: Tree)
    requires FsOk(v, t) && Step(t, op, u) && !op.Resize? && !op.Replace? && BuffersOk(t.bytes, handles, buffers, next, false)
    requires (forall n | n in t.bytes :: !Spares(t, op, n) <==> doomed == Some(n)) && (doomed.Some? ==> doomed.value !in handles.Values)
    ensures BuffersOk(u.bytes, handles, buffers, next, false)
    ensures Step(Veil(t, buffers), op, w) && w.(devices := map[]) == Veil(u, buffers)
  {
    hide FsOk, Mirrors, LinksMatch, TreeOk, Step, Spares, Veil;
    FsParts(v, t);
    FileKinds(t);
    forall n: nat | n in handles.Values ensures n in u.bytes && u.bytes[n] == t.bytes[n] {
      HandleOpen(t.bytes, handles, buffers, next, n);
      Spared(t, op, u, n);
    }
    w := StepVeiled(t, op, u, buffers);
  }

  lemma HandleOpen(disk: map<nat, seq<byte>>, handles: map<nat, nat>, buffers: map<nat, FileBuf>, next: nat, n: nat)
    requires BuffersOk(disk, handles, buffers, next, false) && n in handles.Values
    ensures n in disk
  {
  }

  lemma FileKinds(t: Tree)
    requires TreeOk(t)
    ensures forall n | n in t.bytes :: n in t.kinds
  {
    hide DirsOk, LinksOk, NamesOk;
  }

  /** The replies are those of plain files, one request after the other. */
  ghost predicate Played(ps: seq<Plain>, qs: seq<Request>, replies: seq<Reply>) {
    |ps| == |qs| + 1 && |replies| == |qs| && forall i | 0 <= i < |qs| :: Answers(ps[i], qs[i], replies[i], ps[i + 1])
  }

  /** Any interleaving: as long as nothing fails, the daemon is indistinguishable from plain files,
      and once the last handle is closed the disk holds exactly those files. */
  method PlayAll(st: State, qs: seq<Request>) returns (done: nat, replies: seq<Reply>, ghost ps: seq<Plain>)
    requires st.Valid()
    modifies st, st.vol, st.vol.image
    ensures done <= |qs|
    ensures done == |qs| ==> st.Valid() && Played(ps, qs, replies) && ps[0] == old(PlainOf(st)) && ps[|qs|] == PlainOf(st)
    ensures done == |qs| && ps[|qs|].handles == map[] ==> st.buffers == map[] && st.tree.(devices := map[]) == ps[|qs|].names
    ensures done == |qs| ==> FsOk(st.vol.View(), st.tree)
    ensures done < |qs| ==> Played(ps, qs[..done], replies) && Hindered(st.vol.View(), st.readOnly, ps[done], qs[done])
  {
    hide FsOk, BuffersOk, Overlay, Answers, Hindered;
    ps, replies := [PlainOf(st)], [];
    for i := 0 to |qs|
      invariant st.Valid() && Played(ps, qs[..i], replies) && ps[0] == old(PlainOf(st)) && ps[i] == PlainOf(st)
    {
      var r := Serve(st, qs[i]);
      if r.Err? { return i, replies, ps; }
      PlayedMore(ps, qs[..i], replies, PlainOf(st), qs[i], r.value);
      assert qs[..i + 1] == qs[..i] + [qs[i]];
      ps, replies := ps + [PlainOf(st)], replies + [r.value];
    }
    assert qs[..|qs|] == qs;
    st.Settled();
    return |qs|, replies, ps;
  }

  lemma PlayedMore(ps: seq<Plain>, qs: seq<Request>, replies: seq<Reply>, p: Plain, q: Request, a: Reply)
    requires Played(ps, qs, replies) && Answers(ps[|qs|], q, a, p)
    ensures Played(ps + [p], qs + [q], replies + [a])
  {
    hide Answers;
  }
}
