/** The whole claim in one piece: format, run any operations, check. */
module Property {
  import opened Geometry
  import opened VolumeState
  import opened Alloc
  import opened Inodes
  import opened InodeAlloc
  import opened Dir
  import opened Tree
  import opened Mirror
  import opened Run
  import opened History
  import opened Check
  import opened Clean
  import opened Recount
  import opened Layout
  import opened Format

  /** From a fresh file system whose layout is housed, after any run of successful operations, the checker is
      silent and the tree is the run's. */
  method FormatRunCheck(image: array<byte>, o: Options, ops: seq<Op>)
    returns (done: nat, problems: seq<Problem>, vol: Result<Volume>, ghost ts: seq<Tree>)
    requires image.Length == o.size && o.size / SECTOR < SLICE
    modifies image
    ensures vol.Ok? <==> Plan(o).Ok? && Startable(Plan(o).value)
    ensures vol.Ok? ==> fresh(vol.value) && done <= |ops|
    ensures Plan(o).Ok? && Housed(Plan(o).value) ==> vol.Ok? && Trace(ts, ops[..done]) && ts[0] == Bare()
    ensures Plan(o).Ok? && Housed(Plan(o).value) && done == |ops| ==>
              vol.Ok? && Trace(ts, ops) && FsOk(vol.value.View(), ts[|ops|]) && problems == []
    ensures Plan(o).Ok? && Housed(Plan(o).value) && done < |ops| ==> vol.Ok? && Obstacle(vol.value.View(), ts[done], ops[done])
  {
    hide FsOk, Trace, Bare, Plan, Obstacle, Startable, Housed, Placed, SheetsBalance, LostSlots;
    var sheets;
    vol, sheets := FormatSlice(image, o);
    if vol.Err? || !Housed(Plan(o).value) { return 0, [], vol, []; }
    SmallSlice(o, vol.value.View());
    var l := Plan(o).value;
    NothingLost(l, image.Length);
    done, problems, ts := RunThenCheck(vol.value, LostSlots(l, image.Length), ops, Bare());
  }

  lemma SmallSlice(o: Options, v: Vol)
    requires Plan(o).Ok? && v.g == GeometryOf(Plan(o).value) && FsOk(v, Bare()) && o.size / SECTOR < SLICE
    ensures v.g.dsize < I31 && |v.inodes| < I31
  {
    hide FsOk, Plan, Ordered, Tiled, BlocksOk, CountsOk, FilesOk;
    PlanOk(o);
    PlanSize(o);
    InodeNumbers(Plan(o).value);
    FsShape(v, Bare());
  }
}
