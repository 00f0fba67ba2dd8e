/** Runs of requests to regular files (src/fs/read.c, src/fs/write.c, src/fs/link.c): what they see is a table of byte strings. */
module FileClient {
  import opened ZoneEntries
  import opened ZoneMap
  import opened FileBlocks
  import opened FileBytes
  import opened FileWrites
  import opened ZoneDemand
  import BT = BlockTypes
  import D = BlockDevice
  import F = FileSystem
  import SB = SuperBlocks

  datatype Request =
    | Read(i: nat, pos: nat, nbytes: nat)
    | Write(i: nat, pos: nat, append: bool, data: seq<Byte>)
    | Empty(i: nat)

  datatype Reply = Bytes(bytes: seq<Byte>) | Wrote(code: F.Code, n: nat) | Emptied

  /** Where a write starts. */
  function Start(m: seq<seq<Byte>>, r: Request): nat
    requires r.Write? && r.i < |m|
  {
    if r.append then |m[r.i]| else r.pos
  }

  /** The replies that byte strings give: how much of a write succeeds is for the device to say, and no file is beyond limit. */
  ghost predicate Gives(m: seq<seq<Byte>>, r: Request, reply: Reply, limit: nat, g: Geometry, lost: set<int>) {
    r.i < |m| && match r
    case Read(i, pos, nbytes) =>
      reply == Bytes(if pos >= |m[i]| then [] else if pos + nbytes >= |m[i]| then m[i][pos..] else m[i][pos..pos + nbytes])
    case Write(_, pos, _, data) =>
      && reply.Wrote? && reply.n <= |data| && (reply.code == F.OK ==> reply.n == |data|)
      && (reply.code == F.EFBIG <==> |data| > 0 && pos > limit - |data|) && (reply.code == F.EFBIG ==> reply.n == 0)
      && (reply.code == F.ENOSPC ==> Scarce(m, r, reply, g, lost))
    case Empty(_) => reply == Emptied
  }

  /** The byte strings after a request. */
  function After(m: seq<seq<Byte>>, r: Request, reply: Reply): seq<seq<Byte>>
    requires r.i < |m|
  {
    match r
    case Read(_, _, _) => m
    case Write(i, _, _, data) =>
      if reply.Wrote? && reply.code != F.EFBIG && data != [] && reply.n <= |data| then m[i := Written(m[i], Start(m, r), data[..reply.n])]
      else m
    case Empty(i) => m[i := []]
  }

  /** The device has not as many zones left as the next byte of a write needs. */
  ghost predicate Scarce(m: seq<seq<Byte>>, r: Request, reply: Reply, g: Geometry, lost: set<int>) {
    exists v :: NoRoom(m, r, reply, g, lost, v)
  }

  /** Files are what they should be after the write, and so arranged that there is no room for its next byte. */
  ghost predicate NoRoom(m: seq<seq<Byte>>, r: Request, reply: Reply, g: Geometry, lost: set<int>, v: Volume) {
    && r.Write? && r.i < |m| == |v.inodes| && reply.Wrote? && v.g == g && g.perZone > 0 && Inv(v)
    && (forall j {:trigger MirrorsOne(After(m, r, reply), v, j)} ::
          0 <= j < |m| && (j != r.i || !Spoils(m, r, reply)) ==> MirrorsOne(After(m, r, reply), v, j))
    && Start(m, r) + reply.n < Bound(g) && TooFew(v, r.i, Start(m, r) + reply.n, lost)
  }

  /** A write behind the end that wrote nothing, or an append past what can be mapped. */
  predicate Spoils(m: seq<seq<Byte>>, r: Request, reply: Reply) {
    r.Write? && r.i < |m| && r.data != [] && reply.Wrote? && reply.code != F.EFBIG &&
    (reply.code == F.BEYOND || (reply.n == 0 && Start(m, r) > |m[r.i]|))
  }

  /** Files are these byte strings, and none ends in a hole. */
  ghost predicate Mirrors(m: seq<seq<Byte>>, v: Volume) {
    v.g.perZone > 0 && |m| == |v.inodes| && forall i {:trigger MirrorsOne(m, v, i)} :: 0 <= i < |m| ==> MirrorsOne(m, v, i)
  }

  ghost predicate MirrorsOne(m: seq<seq<Byte>>, v: Volume, i: int) {
    && v.g.perZone > 0 && 0 <= i < |m| == |v.inodes| && TidyFile(v, i) && v.inodes[i].size == |m[i]|
    && Content(v, i, |m[i]|) == m[i] && Solid(v, i, |m[i]|)
  }

  lemma MirrorsOther(m: seq<seq<Byte>>, v: Volume, w: Volume, m': seq<seq<Byte>>, j: int)
    requires MirrorsOne(m, v, j) && SameFile(v, w, j) && |m'| == |m| && m'[j] == m[j] && TidyFile(w, j)
    ensures MirrorsOne(m', w, j)
  {
    hide Content, Solid, Tidy;
    SameContent(v, w, j, |m[j]|);
    SameTidy(v, w, j, |m[j]|);
  }

  lemma MirrorsWrite(m: seq<seq<Byte>>, v: Volume, w: Volume, r: Request, n: nat, reply: Reply)
    requires Mirrors(m, v) && r.Write? && r.i < |m| && reply.Wrote? && reply.n == n && reply.code != F.EFBIG && r.data != []
    requires Stretched(v, w, r.i, Start(m, r), n, Start(m, r) + n, r.data) && !Spoils(m, r, reply)
    requires forall j :: 0 <= j < |w.inodes| ==> TidyFile(w, j)
    ensures Mirrors(After(m, r, reply), w)
  {
    hide Content, Solid, Tidy, Written;
    var m', i := After(m, r, reply), r.i;
    assert MirrorsOne(m, v, i) && TidyFile(w, i);
    assert NoHoleAt(v, i, |m[i]|, Start(m, r));
    assert |Written(m[i], Start(m, r), r.data[..n])| == Max(|m[i]|, Start(m, r) + n);
    assert MirrorsOne(m', w, i);
    forall j | 0 <= j < |m'| ensures MirrorsOne(m', w, j) {
      if j != i {
        assert MirrorsOne(m, v, j) && TidyFile(w, j) && SameFile(v, w, j);
        MirrorsOther(m, v, w, m', j);
      }
    }
  }

  lemma MirrorsEmpty(m: seq<seq<Byte>>, v: Volume, w: Volume, i: nat)
    requires Mirrors(m, v) && i < |m| && |w.inodes| == |v.inodes| && w.g == v.g && OthersSame(v, w, i) && w.inodes[i].size == 0
    requires forall j :: 0 <= j < |w.inodes| ==> TidyFile(w, j)
    ensures Mirrors(m[i := []], w)
  {
    hide Content, Tidy;
    var m' := m[i := []];
    assert TidyFile(w, i) && Content(w, i, 0) == [];
    assert MirrorsOne(m', w, i);
    hide Solid;
    forall j | 0 <= j < |m'| ensures MirrorsOne(m', w, j) {
      if j != i {
        assert MirrorsOne(m, v, j) && TidyFile(w, j) && SameFile(v, w, j);
        MirrorsOther(m, v, w, m', j);
      }
    }
  }

  /** Why a write ended early. */
  lemma ScarceHere(m: seq<seq<Byte>>, v: Volume, w: Volume, r: Request, n: nat, reply: Reply, lost: set<int>)
    requires Mirrors(m, v) && r.Write? && r.i < |m| && reply == Wrote(F.ENOSPC, n) && r.data != []
    requires Stretched(v, w, r.i, Start(m, r), n, Start(m, r) + n, r.data) && Inv(w)
    requires forall j :: 0 <= j < |w.inodes| ==> TidyFile(w, j)
    requires Start(m, r) + n < Bound(w.g) && TooFew(w, r.i, Start(m, r) + n, lost)
    ensures Scarce(m, r, reply, v.g, lost)
  {
    hide Content, Solid, Tidy, Written, Inv, TooFew, Bound;
    var m', i := After(m, r, reply), r.i;
    if !Spoils(m, r, reply) { MirrorsWrite(m, v, w, r, n, reply); }
    forall j | 0 <= j < |m| && (j != i || !Spoils(m, r, reply)) ensures MirrorsOne(m', w, j) {
      if j != i {
        assert MirrorsOne(m, v, j) && TidyFile(w, j) && SameFile(v, w, j);
        MirrorsOther(m, v, w, m', j);
      }
    }
    assert NoRoom(m, r, reply, v.g, lost, w);
  }

  lemma StretchedEnd(v: Volume, w: Volume, i: int, p: nat, n: nat, position: nat, data: seq<Byte>)
    requires Stretched(v, w, i, p, n, position, data)
    ensures position == p + n
  {
  }

  lemma MirrorsSize(m: seq<seq<Byte>>, v: Volume)
    requires Mirrors(m, v)
    ensures |m| == |v.inodes|
  {
  }

  method DoWrite(fs: F.FileSystem, r: Request, ghost m: seq<seq<Byte>>, ghost good: bool) returns (reply: Reply)
    requires fs.Valid() && fs.AllTidy() && r.Write? && r.i < fs.inodes.Length == |m| && fs.s_max_size <= Bound(fs.g)
    requires good ==> Mirrors(m, fs.St())
    modifies fs, fs.dev.parts, fs.inodes, fs.sb, fs.sb.zoneMap, fs.sb.zoneMap.words
    ensures fs.Valid() && fs.AllTidy() && fs.loose == old(fs.loose) && (good ==> Gives(m, r, reply, fs.s_max_size, fs.g, fs.loose))
    ensures good && !Spoils(m, r, reply) ==> Mirrors(After(m, r, reply), fs.St())
  {
    hide Inv, Content, Solid, Tidy, Written, Stretched, Bound, Needs, Unused, Mirrors, Scarce, D.BlockDevice.Valid, F.FileSystem.Books;
    ghost var v := fs.St();
    if good { MirrorsHere(m, v, r.i); }
    var code, n, position := fs.WriteFile(r.i, r.pos, r.append, r.data);
    reply := Wrote(code, n);
    if good && code != F.EFBIG && r.data != [] {
      StretchedEnd(v, fs.St(), r.i, Start(m, r), n, position, r.data);
      if !Spoils(m, r, reply) { MirrorsWrite(m, v, fs.St(), r, n, reply); }
      if code == F.ENOSPC {
        fs.SpareUnused();
        ScarceHere(m, v, fs.St(), r, n, reply, fs.loose);
      }
    }
  }

  lemma MirrorsHere(m: seq<seq<Byte>>, v: Volume, i: int)
    requires Mirrors(m, v) && 0 <= i < |m|
    ensures v.g.perZone > 0 && i < |v.inodes| == |m| && v.inodes[i].size == |m[i]| && Content(v, i, |m[i]|) == m[i] && TidyFile(v, i)
  {
    hide Content, Solid, Tidy;
    assert MirrorsOne(m, v, i);
  }

  /** A request, of files that are these byte strings if good. */
  method Step(fs: F.FileSystem, r: Request, ghost m: seq<seq<Byte>>, ghost good: bool) returns (reply: Reply)
    requires fs.Valid() && fs.AllTidy() && r.i < fs.inodes.Length == |m| && fs.s_max_size <= Bound(fs.g)
    requires good ==> Mirrors(m, fs.St())
    modifies fs, fs.dev.parts, fs.inodes, fs.sb, fs.sb.zoneMap, fs.sb.zoneMap.words
    ensures fs.Valid() && fs.AllTidy() && fs.loose == old(fs.loose) && (good ==> Gives(m, r, reply, fs.s_max_size, fs.g, fs.loose))
    ensures good && !Spoils(m, r, reply) ==> Mirrors(After(m, r, reply), fs.St())
  {
    hide Inv, Content, Solid, Tidy, Written, Bound, Scarce, Mirrors, D.BlockDevice.Valid, F.FileSystem.Books;
    ghost var v := fs.St();
    assert TidyFile(v, r.i);
    if good { MirrorsHere(m, v, r.i); }
    match r
    case Read(i, pos, nbytes) =>
      var buffer, position := fs.ReadFile(i, pos, nbytes);
      reply := Bytes(buffer);
    case Write(_, _, _, _) =>
      reply := DoWrite(fs, r, m, good);
    case Empty(i) =>
      fs.EmptyFile(i);
      if good { MirrorsEmpty(m, v, fs.St(), i); }
      reply := Emptied;
  }

  /** The byte strings after the first k requests. */
  ghost function States(m: seq<seq<Byte>>, rs: seq<Request>, replies: seq<Reply>, k: nat): (m': seq<seq<Byte>>)
    requires k <= |rs| && k <= |replies| && forall j :: 0 <= j < |rs| ==> rs[j].i < |m|
    ensures |m'| == |m|
  {
    if k == 0 then m else After(States(m, rs, replies, k - 1), rs[k - 1], replies[k - 1])
  }

  lemma {:induction false} StatesPrefix(m: seq<seq<Byte>>, rs: seq<Request>, a: seq<Reply>, b: Reply, k: nat)
    requires k <= |rs| && k <= |a| && forall j :: 0 <= j < |rs| ==> rs[j].i < |m|
    ensures States(m, rs, a + [b], k) == States(m, rs, a, k)
  {
    if k > 0 { StatesPrefix(m, rs, a, b, k - 1); }
  }

  /** Write k, or an earlier one, has spoiled a file. */
  ghost predicate SpoiledBefore(m: seq<seq<Byte>>, rs: seq<Request>, replies: seq<Reply>, k: nat)
    requires k <= |rs| && k <= |replies| && forall j :: 0 <= j < |rs| ==> rs[j].i < |m|
  {
    k > 0 && (SpoiledBefore(m, rs, replies, k - 1) || Spoils(States(m, rs, replies, k - 1), rs[k - 1], replies[k - 1]))
  }

  lemma {:induction false} SpoiledPrefix(m: seq<seq<Byte>>, rs: seq<Request>, a: seq<Reply>, b: Reply, k: nat)
    requires k <= |rs| && k <= |a| && forall j :: 0 <= j < |rs| ==> rs[j].i < |m|
    ensures SpoiledBefore(m, rs, a + [b], k) == SpoiledBefore(m, rs, a, k)
  {
    if k > 0 {
      SpoiledPrefix(m, rs, a, b, k - 1);
      StatesPrefix(m, rs, a, b, k - 1);
    }
  }

  lemma AtStart(m: seq<seq<Byte>>, rs: seq<Request>)
    requires forall j :: 0 <= j < |rs| ==> rs[j].i < |m|
    ensures States(m, rs, [], 0) == m && !SpoiledBefore(m, rs, [], 0)
  {
  }

  /** Replies are those of plain byte strings until a write has spoiled a file. */
  ghost predicate AllGiven(m: seq<seq<Byte>>, rs: seq<Request>, replies: seq<Reply>, limit: nat, g: Geometry, lost: set<int>)
    requires |replies| <= |rs| && forall j :: 0 <= j < |rs| ==> rs[j].i < |m|
  {
    forall k :: 0 <= k < |replies| && !SpoiledBefore(m, rs, replies, k) ==> Gives(States(m, rs, replies, k), rs[k], replies[k], limit, g, lost)
  }

  lemma OneMore(m: seq<seq<Byte>>, rs: seq<Request>, a: seq<Reply>, b: Reply, limit: nat, g: Geometry, lost: set<int>)
    requires |a| < |rs| && (forall j :: 0 <= j < |rs| ==> rs[j].i < |m|) && AllGiven(m, rs, a, limit, g, lost)
    requires !SpoiledBefore(m, rs, a, |a|) ==> Gives(States(m, rs, a, |a|), rs[|a|], b, limit, g, lost)
    ensures AllGiven(m, rs, a + [b], limit, g, lost)
  {
    hide Gives, States, SpoiledBefore;
    var c := a + [b];
    forall k | 0 <= k < |c| && !SpoiledBefore(m, rs, c, k) ensures Gives(States(m, rs, c, k), rs[k], c[k], limit, g, lost) {
      StatesPrefix(m, rs, a, b, k);
      SpoiledPrefix(m, rs, a, b, k);
      assert k < |a| ==> c[k] == a[k];
    }
  }

  lemma NextState(m: seq<seq<Byte>>, rs: seq<Request>, a: seq<Reply>, b: Reply)
    requires |a| < |rs| && forall j :: 0 <= j < |rs| ==> rs[j].i < |m|
    ensures States(m, rs, a + [b], |a| + 1) == After(States(m, rs, a, |a|), rs[|a|], b)
    ensures SpoiledBefore(m, rs, a + [b], |a| + 1) <==> SpoiledBefore(m, rs, a, |a|) || Spoils(States(m, rs, a, |a|), rs[|a|], b)
  {
    hide Spoils, After;
    var c, n := a + [b], |a|;
    StatesPrefix(m, rs, a, b, n);
    SpoiledPrefix(m, rs, a, b, n);
    assert c[n] == b;
  }

  /** For every run of requests, as long as no write has spoiled a file, the replies are those of plain byte strings. */
  method Run(fs: F.FileSystem, rs: seq<Request>, ghost m: seq<seq<Byte>>) returns (replies: seq<Reply>)
    requires fs.Valid() && fs.AllTidy() && Mirrors(m, fs.St()) && fs.s_max_size <= Bound(fs.g)
    requires forall j :: 0 <= j < |rs| ==> rs[j].i < fs.inodes.Length
    modifies fs, fs.dev.parts, fs.inodes, fs.sb, fs.sb.zoneMap, fs.sb.zoneMap.words
    ensures fs.Valid() && fs.AllTidy() && fs.loose == old(fs.loose) && |replies| == |rs|
    ensures AllGiven(m, rs, replies, fs.s_max_size, fs.g, fs.loose)
    ensures !SpoiledBefore(m, rs, replies, |rs|) ==> Mirrors(States(m, rs, replies, |rs|), fs.St())
  {
    hide Gives, Spoils, After, Inv, States, SpoiledBefore, Mirrors, Bound, F.FileSystem.Valid, F.FileSystem.AllTidy;
    replies := [];
    MirrorsSize(m, fs.St());
    AtStart(m, rs);
    ghost var now, good := m, true;
    while |replies| < |rs|
      invariant fs.Valid() && fs.AllTidy() && fs.loose == old(fs.loose) && |replies| <= |rs| && now == States(m, rs, replies, |replies|)
      invariant good == !SpoiledBefore(m, rs, replies, |replies|) && (good ==> Mirrors(now, fs.St()))
      invariant AllGiven(m, rs, replies, fs.s_max_size, fs.g, fs.loose)
    {
      var r := rs[|replies|];
      ghost var was, n := replies, |replies|;
      var reply := Step(fs, r, now, good);
      OneMore(m, rs, was, reply, fs.s_max_size, fs.g, fs.loose);
      NextState(m, rs, was, reply);
      replies := replies + [reply];
      good := good && !Spoils(now, r, reply);
      now := After(now, r, reply);
    }
  }

  /** What a file system looks like while nobody uses it: its blocks are on the disk, and exactly the zones in use are allocated. */
  ghost predicate Unmounted(disk: BT.Disk, dev: nat, sb: SB.SuperBlock, v: Volume)
    reads sb, sb.inodeMap, sb.zoneMap, sb.inodeMap.words, sb.zoneMap.words
  {
    && D.OnDisk(disk, dev, v.disk) && Inv(v) && v.g.perZone > 0 && (forall j :: 0 <= j < |v.inodes| ==> TidyFile(v, j))
    && sb.Valid() && !sb.s_rd_only && sb.s_firstdatazone == v.g.first && sb.s_zones == v.g.zones && sb.Zones() == v.role.Keys
  }

  /** A file system is mounted, used through a cache of any size, and synced: the replies are those of byte strings, and the disk
      alone has the files then, so that it can be mounted again. */
  method Session(cache: D.Sizes, disk0: BT.Disk, dev: nat, sb: SB.SuperBlock, g: Geometry, s_max_size: nat,
                 inodes: array<Inode>, rs: seq<Request>, ghost m: seq<seq<Byte>>, ghost v: Volume)
    returns (replies: seq<Reply>, disk: BT.Disk, ghost w: Volume)
    requires cache.Serves(dev) && Unmounted(disk0, dev, sb, v) && v.g == g && v.inodes == inodes[..] && s_max_size <= Bound(g) && Mirrors(m, v)
    requires (inodes as object) != sb.zoneMap.words && (inodes as object) != sb.inodeMap.words
    requires forall j :: 0 <= j < |rs| ==> rs[j].i < inodes.Length
    modifies inodes, sb, sb.zoneMap, sb.zoneMap.words
    ensures Unmounted(disk, dev, sb, w) && w.g == g && w.inodes == inodes[..]
    ensures |replies| == |rs| && |m| == inodes.Length && AllGiven(m, rs, replies, s_max_size, g, {})
    ensures !SpoiledBefore(m, rs, replies, |rs|) ==> Mirrors(States(m, rs, replies, |rs|), w)
  {
    hide Gives, Spoils, After, Inv, States, SpoiledBefore, Mirrors, Bound, D.BlockDevice.Valid, D.OnDisk, SB.SuperBlock.Valid, AllGiven;
    MirrorsSize(m, v);
    var device := new D.BlockDevice.New(cache, disk0, dev, v.disk);
    var fs := new F.FileSystem(sb, g, s_max_size, device, inodes, v.role);
    assert fs.St() == v;
    replies := Run(fs, rs, m);
    w := fs.St();
    device.Sync();
    disk := device.c.disk;
  }
}
