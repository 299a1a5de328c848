/** The mount daemon's write-back buffers, against plain byte-sequence files. */
module Mount {
  import opened Geometry
  import opened VolumeState
  import opened Alloc
  import opened Inodes
  import opened Reader
  import opened Dir
  import opened Directory
  import opened Tree
  import opened Mirror
  import opened Namespace
  import opened Removal

  /** An in-progress file body. */
  datatype FileBuf = FileBuf(data: seq<byte>, dirty: bool)

  /** `data` with `part` written at `offset`, zero-filled up to there. */
  function Written(data: seq<byte>, offset: nat, part: seq<byte>): (r: seq<byte>)
    ensures |r| == Max(|data|, offset + |part|)
    ensures forall i | 0 <= i < |r| ::
              r[i] == if offset <= i < offset + |part| then part[i - offset] else if i < |data| then data[i] else 0
  {
    var end := offset + |part|;
    var long := if end > |data| then Resized(data, end) else data;
    long[..offset] + part + long[end..]
  }

  /** The bytes a read of `size` at `offset` returns. */
  function Window(data: seq<byte>, offset: nat, size: nat): seq<byte> {
    var start := Min(offset, |data|);
    data[start..Min(start + size, |data|)]
  }

  /** Every buffered file is open somewhere; clean buffers agree with the disk. */
  ghost predicate BuffersOk(disk: map<nat, seq<byte>>, handles: map<nat, nat>, buffers: map<nat, FileBuf>, nextFh: nat, readOnly: bool) {
    && (forall n | n in buffers :: n in disk && n in handles.Values && (!buffers[n].dirty ==> buffers[n].data == disk[n]))
    && (forall fh | fh in handles :: fh < nextFh && handles[fh] in disk)
    && (readOnly ==> forall n | n in buffers :: !buffers[n].dirty)
  }

  ghost function Overlay(disk: map<nat, seq<byte>>, buffers: map<nat, FileBuf>): map<nat, seq<byte>> {
    map n | n in disk :: if n in buffers then buffers[n].data else disk[n]
  }

  class State {
    const vol: Volume
    const readOnly: bool
    var nextFh: nat
    var handles: map<nat, nat>
    var buffers: map<nat, FileBuf>
    ghost var tree: Tree

    ghost predicate Valid()
      reads this, vol, vol.image
    {
      FsOk(vol.View(), tree) && BuffersOk(tree.bytes, handles, buffers, nextFh, readOnly)
    }

    /** What a plain file would hold: the buffered body, or else the one on disk. */
    ghost function Files(): map<nat, seq<byte>>
      reads this
    {
      Overlay(tree.bytes, buffers)
    }

    constructor (vol: Volume, readOnly: bool, ghost t: Tree)
      requires FsOk(vol.View(), t)
      ensures Valid() && this.vol == vol && this.readOnly == readOnly && tree == t && handles == map[] && Files() == t.bytes
    {
      hide FsOk;
      this.vol, this.readOnly, this.tree := vol, readOnly, t;
      this.nextFh, this.handles, this.buffers := 0, map[], map[];
    }

    /** Without open handles there are no buffers, and the disk holds every file. */
    lemma Settled()
      requires Valid()
      ensures forall n | n in tree.bytes && n !in handles.Values :: n !in buffers && Files()[n] == tree.bytes[n]
      ensures handles == map[] ==> buffers == map[] && Files() == tree.bytes
    {
      hide FsOk;
      if handles == map[] { assert forall n | n in buffers :: n in handles.Values; }
    }

    /** `open`. */
    method Open(n: nat) returns (fh: nat)
      requires Valid() && n in tree.bytes
      modifies this
      ensures Valid() && Files() == old(Files()) && tree == old(tree) && buffers == old(buffers)
      ensures fh !in old(handles) && handles == old(handles)[fh := n]
    {
      hide FsOk;
      fh := nextFh;
      nextFh := nextFh + 1;
      handles := handles[fh := n];
      assert forall m | m in old(handles).Values :: m in handles.Values by { Kept(old(handles), fh, n); }
    }

    /** `read`: what the plain file would give. */
    method Read(n: nat, offset: nat, size: nat) returns (r: seq<byte>)
      requires Valid() && n in tree.bytes
      ensures r == Window(Files()[n], offset, size)
    {
      hide FsOk, Readable, Walks, Contents;
      if n in buffers {
        var data := buffers[n].data;
        var start := Min(offset, |data|);
        return data[start..Min(start + size, |data|)];
      }
      FileReads(vol.View(), tree, n);
      r := ReadInodeRange(vol, vol.inodes[n], offset, size);
    }

    /** `ensure_buffer`. */
    method EnsureBuffer(n: nat)
      requires Valid() && n in tree.bytes && n in handles.Values
      modifies this
      ensures Valid() && n in buffers && Files() == old(Files()) && tree == old(tree) && handles == old(handles)
    {
      hide FsOk, Readable, Walks, Contents;
      if n in buffers { return; }
      FileReads(vol.View(), tree, n);
      var data := ReadInodeBytes(vol, vol.inodes[n]);
      buffers := buffers[n := FileBuf(data, false)];
    }

    /** `write`, on an open file. */
    method Write(n: nat, offset: nat, part: seq<byte>) returns (r: Result<nat>)
      requires Valid() && n in tree.bytes && n in handles.Values
      modifies this
      ensures Valid() && tree == old(tree) && handles == old(handles)
      ensures r == if readOnly then Err else Ok(|part|)
      ensures Files() == if readOnly then old(Files()) else old(Files())[n := Written(old(Files())[n], offset, part)]
    {
      hide FsOk;
      if readOnly { return Err; }
      EnsureBuffer(n);
      buffers := buffers[n := FileBuf(Written(buffers[n].data, offset, part), true)];
      return Ok(|part|);
    }

    /** `commit`: writes a dirty buffer back. */
    method Commit(n: nat) returns (r: Result<()>)
      requires Valid() && n in tree.bytes
      modifies this, vol, vol.image
      ensures r.Ok? ==> Valid() && Files() == old(Files()) && handles == old(handles) && nextFh == old(nextFh)
      ensures r.Ok? ==> tree.bytes == old(tree).bytes[n := old(Files())[n]] && tree == old(tree).(bytes := tree.bytes, devices := tree.devices)
      ensures r.Ok? ==> buffers.Keys == old(buffers).Keys && (n in buffers ==> !buffers[n].dirty)
      ensures r.Err? ==> NoSpace(vol.g, vol.own)
    {
      hide FsOk, BuffersOk, Overlay, NoSpace;
      Buffered(tree.bytes, handles, buffers, nextFh, readOnly, n);
      if n !in buffers || !buffers[n].dirty {
        return Ok(());
      }
      var data := buffers[n].data;
      Committed(tree.bytes, handles, buffers, nextFh, readOnly, n);
      r := WriteFile(vol, n, data, tree);
      if r.Err? { return; }
      tree := Fill(tree, n, data);
      buffers := buffers[n := FileBuf(data, false)];
    }

    /** `setattr` with a size. */
    method SetSize(n: nat, size: nat) returns (r: Result<()>)
      requires Valid() && n in tree.bytes
      modifies this, vol, vol.image
      ensures readOnly ==> r.Err? && Files() == old(Files())
      ensures r.Ok? ==> Valid() && handles == old(handles) && Files() == old(Files())[n := Resized(old(Files())[n], size)]
      ensures r.Ok? ==> tree == old(tree).(bytes := tree.bytes, devices := tree.devices) && tree.bytes.Keys == old(tree).bytes.Keys
      ensures r.Err? ==> readOnly || NoSpace(vol.g, vol.own)
    {
      hide NoSpace, FsOk, Resized, BuffersOk, Overlay;
      Buffered(tree.bytes, handles, buffers, nextFh, readOnly, n);
      if readOnly { return Err; }
      if n in buffers {
        var data := Resized(buffers[n].data, size);
        Dirtied(tree.bytes, handles, buffers, nextFh, n, data);
        buffers := buffers[n := FileBuf(data, true)];
        return Ok(());
      }
      r := Truncate(vol, n, size, tree);
      if r.Ok? {
        OnDisk(tree.bytes, handles, buffers, nextFh, readOnly, n, Resized(tree.bytes[n], size));
        SizedBytes(tree, n, size);
        tree := Sized(tree, n, size);
      }
    }

    /** `release`: commits, drops the handle, and the buffer with the last handle. */
    method Release(n: nat, fh: nat) returns (r: Result<()>)
      requires Valid() && fh in handles && handles[fh] == n
      modifies this, vol, vol.image
      ensures r.Ok? ==> Valid() && Files() == old(Files()) && handles == old(handles) - {fh}
      ensures r.Ok? ==> tree.bytes == old(tree).bytes[n := Files()[n]] && tree == old(tree).(bytes := tree.bytes, devices := tree.devices)
      ensures r.Ok? && n !in handles.Values ==> n !in buffers && tree.bytes[n] == Files()[n]
      ensures r.Err? ==> NoSpace(vol.g, vol.own)
    {
      hide FsOk, NoSpace, BuffersOk, Overlay;
      OpenFile(tree.bytes, handles, buffers, nextFh, readOnly, fh);
      r := Commit(n);
      if r.Err? { return; }
      Released(tree.bytes, handles, buffers, nextFh, readOnly, n, fh);
      handles := handles - {fh};
      var open := AnyHandle(n);
      if !open {
        buffers := buffers - {n};
      }
    }

    method AnyHandle(n: nat) returns (r: bool)
      ensures r <==> n in handles.Values
    {
      var left := handles.Keys;
      while left != {}
        invariant left <= handles.Keys
        invariant forall fh | fh in handles && fh !in left :: handles[fh] != n
        decreases |left|
      {
        var fh :| fh in left;
        if handles[fh] == n { return true; }
        left := left - {fh};
      }
      return false;
    }

    /** `create`: a new file, open and with an empty buffer. */
    method Create(parent: nat, name: Name, kind: FileType) returns (r: Result<(nat, nat)>)
      requires Valid() && PlainName(name) && (parent, name) !in tree.links && kind != Unset && kind != Directory
      modifies this, vol, vol.image
      ensures readOnly ==> r.Err?
      ensures r.Ok? ==> Valid() && r.value.0 !in old(tree).kinds && tree == NewFile(old(tree), parent, name, r.value.0, kind, [])
      ensures r.Ok? ==> Files() == old(Files())[r.value.0 := []]
      ensures r.Ok? ==> r.value.1 !in old(handles) && handles == old(handles)[r.value.1 := r.value.0]
      ensures r.Err? ==> readOnly || parent !in old(tree).parents || NoSpace(vol.g, vol.own) || NoInodes(vol.View(), old(tree))
    {
      hide NoSpace, NoInodes, FsOk, BuffersOk, Overlay;
      if readOnly { return Err; }
      var made := CreateEmptyInParent(vol, parent, name, kind, tree);
      if made.Err? { return Err; }
      var n := made.value;
      BytesAreFiles(old(vol.View()), tree, n);
      Created(tree.bytes, handles, buffers, nextFh, n);
      tree := NewFile(tree, parent, name, n, kind, []);
      assert tree.bytes == old(tree).bytes[n := []];
      buffers := buffers[n := FileBuf([], false)];
      var fh := nextFh;
      nextFh := nextFh + 1;
      handles := handles[fh := n];
      return Ok((n, fh));
    }
  }

  lemma BytesAreFiles(v: Vol, t: Tree, n: nat)
    requires FsOk(v, t)
    ensures n in t.bytes ==> n in t.kinds
  {
    hide Mirrors, LinksMatch, DirsOk, LinksOk, NamesOk;
  }

  /** A new file with a handle and an empty clean buffer. */
  lemma Created(disk: map<nat, seq<byte>>, handles: map<nat, nat>, buffers: map<nat, FileBuf>, fh: nat, n: nat)
    requires BuffersOk(disk, handles, buffers, fh, false) && n !in disk
    ensures fh !in handles
    ensures BuffersOk(disk[n := []], handles[fh := n], buffers[n := FileBuf([], false)], fh + 1, false)
    ensures Overlay(disk[n := []], buffers[n := FileBuf([], false)]) == Overlay(disk, buffers)[n := []]
  {
    Kept(handles, fh, n);
  }

  lemma Buffered(disk: map<nat, seq<byte>>, handles: map<nat, nat>, buffers: map<nat, FileBuf>, next: nat, ro: bool, n: nat)
    requires BuffersOk(disk, handles, buffers, next, ro) && n in disk
    ensures n in Overlay(disk, buffers) && Overlay(disk, buffers)[n] == if n in buffers then buffers[n].data else disk[n]
    ensures n in buffers ==> n in handles.Values
    ensures n !in buffers || !buffers[n].dirty ==> disk[n := Overlay(disk, buffers)[n]] == disk
  {
    if n !in buffers || !buffers[n].dirty { assert disk[n := disk[n]] == disk; }
  }

  /** An open file's buffer takes new bytes. */
  lemma Dirtied(disk: map<nat, seq<byte>>, handles: map<nat, nat>, buffers: map<nat, FileBuf>, next: nat, n: nat, data: seq<byte>)
    requires BuffersOk(disk, handles, buffers, next, false) && n in disk && n in handles.Values
    ensures BuffersOk(disk, handles, buffers[n := FileBuf(data, true)], next, false)
    ensures Overlay(disk, buffers[n := FileBuf(data, true)]) == Overlay(disk, buffers)[n := data]
  {
  }

  /** A file without a buffer changes on disk. */
  lemma OnDisk(disk: map<nat, seq<byte>>, handles: map<nat, nat>, buffers: map<nat, FileBuf>, next: nat, ro: bool, n: nat, data: seq<byte>)
    requires BuffersOk(disk, handles, buffers, next, ro) && n in disk && n !in buffers
    ensures BuffersOk(disk[n := data], handles, buffers, next, ro)
    ensures Overlay(disk[n := data], buffers) == Overlay(disk, buffers)[n := data]
  {
  }

  /** A buffer written back is clean, and nothing a reader sees has changed. */
  lemma Committed(disk: map<nat, seq<byte>>, handles: map<nat, nat>, buffers: map<nat, FileBuf>, next: nat, ro: bool, n: nat)
    requires BuffersOk(disk, handles, buffers, next, ro) && n in disk && n in buffers
    ensures var data := buffers[n].data;
      && BuffersOk(disk[n := data], handles, buffers[n := FileBuf(data, false)], next, ro)
      && Overlay(disk[n := data], buffers[n := FileBuf(data, false)]) == Overlay(disk, buffers)
  {
  }

  lemma OpenFile(disk: map<nat, seq<byte>>, handles: map<nat, nat>, buffers: map<nat, FileBuf>, next: nat, ro: bool, fh: nat)
    requires BuffersOk(disk, handles, buffers, next, ro) && fh in handles
    ensures handles[fh] in disk
  {
  }

  /** A handle less, and with the last one the clean buffer dropped. */
  lemma Released(disk: map<nat, seq<byte>>, handles: map<nat, nat>, buffers: map<nat, FileBuf>, next: nat, ro: bool, n: nat, fh: nat)
    requires BuffersOk(disk, handles, buffers, next, ro) && fh in handles && handles[fh] == n && (n in buffers ==> !buffers[n].dirty)
    ensures n in Overlay(disk, buffers) && Overlay(disk, buffers)[n] == disk[n]
    ensures n in (handles - {fh}).Values ==> BuffersOk(disk, handles - {fh}, buffers, next, ro)
    ensures n !in (handles - {fh}).Values ==> BuffersOk(disk, handles - {fh}, buffers - {n}, next, ro)
    ensures Overlay(disk, buffers - {n}) == Overlay(disk, buffers)
  {
    Others(handles, fh, n);
  }

  lemma Kept(h: map<nat, nat>, fh: nat, n: nat)
    requires fh !in h
    ensures h[fh := n].Values == h.Values + {n}
  {
    var g := h[fh := n];
    forall m | m in h.Values ensures m in g.Values {
      var x :| x in h && h[x] == m;
      assert g[x] == m;
    }
    assert g[fh] == n;
  }

  lemma Others(h: map<nat, nat>, fh: nat, n: nat)
    requires fh in h && h[fh] == n
    ensures forall m | m in h.Values && m != n :: m in (h - {fh}).Values
  {
    var g := h - {fh};
    forall m | m in h.Values && m != n ensures m in g.Values {
      var x :| x in h && h[x] == m;
      assert g[x] == m;
    }
  }
}
