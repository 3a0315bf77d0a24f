/** Which device a record belongs to: the mount table, and the table of open descriptors. */
module Resolver {
  import opened Text
  import opened Domains
  import opened Records

  datatype Mount = Mount(point: string, device: string)

  /** `table` lists fs_mount_path_to_dev in the order in which std::map iterates; `root` is root_fs_dev. */
  datatype Mounts = Mounts(table: seq<Mount>, root: string)

  /** Strict lexicographic order, the key order of std::map<string, _>. */
  predicate Less(a: string, b: string) {
    b != "" && (a == "" || a[0] < b[0] || (a[0] == b[0] && Less(a[1..], b[1..])))
  }

  predicate Sorted(t: seq<Mount>) {
    forall i, j | 0 <= i < j < |t| :: Less(t[i].point, t[j].point)
  }

  /** The mount with the shortest point that is a string prefix of the path. */
  function Shortest(t: seq<Mount>, path: string): Option<Mount> {
    if t == [] then None
    else
      var m, r := t[0], Shortest(t[1..], path);
      if m.point <= path && (r.None? || |m.point| <= |r.value.point|) then Some(m) else r
  }

  /** The mount with the longest point that is a string prefix of the path. */
  function Longest(t: seq<Mount>, path: string): Option<Mount> {
    if t == [] then None
    else
      var m, r := t[0], Longest(t[1..], path);
      if m.point <= path && (r.None? || |m.point| >= |r.value.point|) then Some(m) else r
  }

  function DeviceOf(m: Option<Mount>, root: string): string {
    if m.Some? then m.value.device else root
  }

  function Device(ms: Mounts, path: string): string {
    DeviceOf(Shortest(ms.table, path), ms.root)
  }

  lemma {:induction false} NotBelowItsPrefix(a: string, b: string)
    requires b <= a
    ensures !Less(a, b)
  {
    if b != "" {
      NotBelowItsPrefix(a[1..], b[1..]);
    }
  }

  /** In a sorted table, of two prefixes of one path the earlier is the shorter. */
  lemma EarlierIsShorter(t: seq<Mount>, path: string, i: nat, j: nat)
    requires Sorted(t) && i < j < |t| && t[i].point <= path && t[j].point <= path
    ensures |t[i].point| < |t[j].point|
  {
    if |t[j].point| <= |t[i].point| {
      NotBelowItsPrefix(t[i].point, t[j].point);
    }
  }

  lemma {:induction false} ShortestIs(t: seq<Mount>, path: string)
    ensures var r := Shortest(t, path);
            && (r.Some? ==> r.value in t && r.value.point <= path)
            && (forall m | m in t && m.point <= path :: r.Some? && |r.value.point| <= |m.point|)
  {
    if t != [] {
      ShortestIs(t[1..], path);
    }
  }

  lemma {:induction false} LongestIs(t: seq<Mount>, path: string)
    ensures var r := Longest(t, path);
            && (r.Some? ==> r.value in t && r.value.point <= path)
            && (forall m | m in t && m.point <= path :: r.Some? && |r.value.point| >= |m.point|)
  {
    if t != [] {
      LongestIs(t[1..], path);
    }
  }

  /** Prefixes of one path are told apart by their length, and a sorted table lists no point twice. */
  lemma OnePerLength(t: seq<Mount>, path: string, m: Mount, n: Mount)
    requires Sorted(t) && m in t && n in t && m.point <= path && n.point <= path && |m.point| == |n.point|
    ensures m == n
  {
    var i :| 0 <= i < |t| && t[i] == m;
    var j :| 0 <= j < |t| && t[j] == n;
    if i < j {
      EarlierIsShorter(t, path, i, j);
    } else if j < i {
      EarlierIsShorter(t, path, j, i);
    }
  }

  /** The first match of the scan is the shortest prefix. */
  lemma FirstIsShortest(t: seq<Mount>, path: string, i: nat)
    requires Sorted(t) && i < |t| && t[i].point <= path
    requires forall k | 0 <= k < i :: !(t[k].point <= path)
    ensures Shortest(t, path) == Some(t[i])
  {
    ShortestIs(t, path);
    var m := Shortest(t, path).value;
    var j :| 0 <= j < |t| && t[j] == m;
    if i < j {
      EarlierIsShorter(t, path, i, j);
    }
  }

  predicate Nested(t: seq<Mount>) {
    exists m, n :: m in t && n in t && m.point <= n.point && m.device != n.device
  }

  /**
   * First match and longest match name the same device for every path exactly when no mount point lies
   * under another mount point of a different device.
   */
  lemma FirstAgreesWithLongest(ms: Mounts)
    requires Sorted(ms.table)
    ensures (forall path :: Device(ms, path) == DeviceOf(Longest(ms.table, path), ms.root)) <==> !Nested(ms.table)
  {
    var t := ms.table;
    if Nested(t) {
      var m, n :| m in t && n in t && m.point <= n.point && m.device != n.device;
      if forall path :: Device(ms, path) == DeviceOf(Longest(t, path), ms.root) {
        SameAtItsPoint(ms, m);
        SameAtItsPoint(ms, n);
        ShortestIs(t, m.point);
        ShortestIs(t, n.point);
        OnePerLength(t, n.point, Shortest(t, m.point).value, Shortest(t, n.point).value);
      }
    } else {
      forall path
        ensures Device(ms, path) == DeviceOf(Longest(t, path), ms.root)
      {
        ShortestIs(t, path);
        LongestIs(t, path);
      }
    }
  }

  lemma SameAtItsPoint(ms: Mounts, m: Mount)
    requires Sorted(ms.table) && m in ms.table
    ensures Longest(ms.table, m.point) == Some(m)
  {
    LongestIs(ms.table, m.point);
    OnePerLength(ms.table, m.point, m, Longest(ms.table, m.point).value);
  }

  /**
   * lsblk prints MOUNTPOINT="" for an unmounted device, and such a line ends up in the table under the
   * empty name: from then on every path belongs to that device.
   */
  lemma EmptyMountPointTakesAll(ms: Mounts, device: string, path: string)
    requires Sorted(ms.table) && Mount("", device) in ms.table
    ensures Device(ms, path) == device
  {
    ShortestIs(ms.table, path);
    OnePerLength(ms.table, path, Mount("", device), Shortest(ms.table, path).value);
  }

  // Open descriptors.

  predicate Opens(r: Record, fd: int) {
    r.dom == FILE_OPEN_CLOSE && r.op == OPEN && r.fd == fd != FD_NONE && r.s1 != ""
  }

  predicate Closes(r: Record, fd: int) {
    r.dom == FILE_OPEN_CLOSE && r.op == CLOSE && r.fd == fd
  }

  /** The domains whose records are only looked up. */
  predicate LooksUp(d: Domain) {
    d == FILE_READ || d == FILE_WRITE || d == FILE_METADATA || d == FILE_SPACE || d == SYNCS
  }

  predicate IsTracked(r: Record) {
    (r.dom == FILE_OPEN_CLOSE && (r.op == OPEN || r.op == CLOSE)) || LooksUp(r.dom)
  }

  function Min(a: nat, b: nat): nat {
    if a < b then a else b
  }

  /** strncpy(rec->device, dev, DEVICE_LEN) */
  function WithDevice(r: Record, device: string): (out: Record)
    ensures out == r.(device := out.device) && out.device <= device
    ensures if |device| <= DEVICE_LEN then out.device == device else |out.device| == DEVICE_LEN
  {
    r.(device := device[..Min(|device|, DEVICE_LEN)])
  }

  function Registered(ms: Mounts, fds: map<int, string>, r: Record): map<int, string> {
    if r.fd != FD_NONE && r.s1 != "" then fds[r.fd := Device(ms, r.s1)] else fds
  }

  function Deregistered(fds: map<int, string>, r: Record): map<int, string> {
    if r.fd != FD_NONE then fds - {r.fd} else fds
  }

  function Resolved(fds: map<int, string>, r: Record): Record {
    if r.fd != FD_NONE && r.fd in fds then WithDevice(r, fds[r.fd]) else r
  }

  /** The dispatch in input_loop(): the new descriptor table and the record with its device. */
  function Track(ms: Mounts, fds: map<int, string>, r: Record): (map<int, string>, Record) {
    if r.dom == FILE_OPEN_CLOSE then
      if r.op == OPEN then var now := Registered(ms, fds, r); (now, Resolved(now, r))
      else if r.op == CLOSE then (Deregistered(fds, r), Resolved(fds, r))
      else (fds, r)
    else if LooksUp(r.dom) then (fds, Resolved(fds, r))
    else (fds, r)
  }

  function Table(ms: Mounts, rs: seq<Record>): map<int, string> {
    if rs == [] then map[] else Track(ms, Table(ms, rs[..|rs| - 1]), rs[|rs| - 1]).0
  }

  /** The records as the plugins get them. */
  function TrackAll(ms: Mounts, rs: seq<Record>): seq<Record> {
    if rs == [] then []
    else
      var init := rs[..|rs| - 1];
      TrackAll(ms, init) + [Track(ms, Table(ms, init), rs[|rs| - 1]).1]
  }

  lemma TrackOneMore(ms: Mounts, recs: seq<Record>, r: Record)
    ensures Table(ms, recs + [r]) == Track(ms, Table(ms, recs), r).0
    ensures TrackAll(ms, recs + [r]) == TrackAll(ms, recs) + [Track(ms, Table(ms, recs), r).1]
  {
    assert (recs + [r])[..|recs|] == recs;
  }

  /** Record j opened fd, and no later record of the history opened it again or closed it. */
  predicate LiveOpen(h: seq<Record>, fd: int, j: nat) {
    && j < |h| && Opens(h[j], fd)
    && forall k | j < k < |h| :: !Opens(h[k], fd) && !Closes(h[k], fd)
  }

  /** The device fd stands for after the history h. */
  ghost function Held(ms: Mounts, h: seq<Record>, fd: int): Option<string> {
    if exists j: nat :: LiveOpen(h, fd, j) then
      (var j: nat :| LiveOpen(h, fd, j); Some(Device(ms, h[j].s1)))
    else None
  }

  lemma HeldIs(ms: Mounts, h: seq<Record>, fd: int, j: nat)
    requires LiveOpen(h, fd, j)
    ensures Held(ms, h, fd) == Some(Device(ms, h[j].s1))
  {
    assert forall k: nat :: LiveOpen(h, fd, k) ==> k == j;
  }

  lemma HeldAfter(ms: Mounts, h: seq<Record>, r: Record, fd: int)
    ensures Held(ms, h + [r], fd)
         == if Opens(r, fd) then Some(Device(ms, r.s1)) else if Closes(r, fd) then None else Held(ms, h, fd)
  {
    var all := h + [r];
    if Opens(r, fd) {
      HeldIs(ms, all, fd, |h|);
    } else if Closes(r, fd) {
      assert Closes(all[|h|], fd) && !Opens(all[|h|], fd);
      assert forall j: nat :: !LiveOpen(all, fd, j);
    } else {
      assert forall k | 0 <= k < |h| :: all[k] == h[k];
      if j: nat :| LiveOpen(h, fd, j) {
        HeldIs(ms, h, fd, j);
        assert LiveOpen(all, fd, j);
        HeldIs(ms, all, fd, j);
      }
      if j: nat :| LiveOpen(all, fd, j) {
        assert LiveOpen(h, fd, j);
      }
    }
  }

  /** What one record does to the entry of a descriptor. */
  lemma TrackEntry(ms: Mounts, fds: map<int, string>, r: Record, fd: int)
    requires FD_NONE !in fds || fd != FD_NONE
    ensures var now := Track(ms, fds, r).0;
            (if fd in now then Some(now[fd]) else None)
            == if Opens(r, fd) then Some(Device(ms, r.s1)) else if Closes(r, fd) then None
               else if fd in fds then Some(fds[fd]) else None
  {
    hide Device, Resolved;
  }

  lemma NothingHeld(ms: Mounts, h: seq<Record>, fd: int)
    requires h == [] || fd == FD_NONE
    ensures Held(ms, h, fd) == None
  {
  }

  lemma NothingTracked(ms: Mounts)
    ensures Table(ms, []) == map[] && TrackAll(ms, []) == []
  {
  }

  /** The descriptor table always is the history's answer, for every descriptor. */
  lemma {:induction false} TableIsHistory(ms: Mounts, h: seq<Record>, fd: int)
    ensures Held(ms, h, fd) == if fd in Table(ms, h) then Some(Table(ms, h)[fd]) else None
  {
    hide Held, Table, Track, TrackAll, Device;
    if h == [] {
      NothingHeld(ms, h, fd);
      NothingTracked(ms);
    } else {
      var init, r := h[..|h| - 1], h[|h| - 1];
      assert init + [r] == h;
      TableIsHistory(ms, init, fd);
      NothingHeld(ms, init, FD_NONE);
      HeldAfter(ms, init, r, fd);
      TrackOneMore(ms, init, r);
      TrackEntry(ms, Table(ms, init), r, fd);
    }
  }

  /** A record's answer by history alone: an OPEN counts itself, a CLOSE still sees the device it ends. */
  ghost function Answer(ms: Mounts, h: seq<Record>, r: Record): Record {
    var held := Held(ms, if Opens(r, r.fd) then h + [r] else h, r.fd);
    if IsTracked(r) && held.Some? then WithDevice(r, held.value) else r
  }

  lemma {:induction false} TrackAllLength(ms: Mounts, rs: seq<Record>)
    ensures |TrackAll(ms, rs)| == |rs|
  {
    if rs != [] {
      TrackAllLength(ms, rs[..|rs| - 1]);
    }
  }

  /** Main result: every record of every sequence carries the device the history before it gives its descriptor. */
  lemma {:induction false} DevicesAreHistory(ms: Mounts, rs: seq<Record>, i: nat)
    requires i < |rs|
    ensures i < |TrackAll(ms, rs)| && TrackAll(ms, rs)[i] == Answer(ms, rs[..i], rs[i])
  {
    var init, r := rs[..|rs| - 1], rs[|rs| - 1];
    TrackAllLength(ms, init);
    if i == |rs| - 1 {
      assert rs[..i] == init;
      TableIsHistory(ms, init, r.fd);
      HeldAfter(ms, init, r, r.fd);
    } else {
      assert rs[..i] == init[..i];
      DevicesAreHistory(ms, init, i);
    }
  }

  /** A device as it fits the record's field of ten characters. */
  function Cut(device: string): string {
    if |device| <= 10 then device else device[..10]
  }

  lemma CutDevice(r: Record, device: string)
    ensures WithDevice(r, device) == r.(device := Cut(device))
  {
  }

  /** r opens descriptor fd under a name, or closes it. */
  predicate Touches(r: Record, fd: int) {
    r.dom == 13 && r.fd == fd && ((r.op == OPEN && r.s1 != "") || r.op == CLOSE)
  }

  lemma LastTracked(ms: Mounts, h: seq<Record>, r: Record)
    ensures TrackAll(ms, h + [r]) == TrackAll(ms, h) + [Answer(ms, h, r)]
  {
    hide Answer, Track, TrackAll;
    TrackIsAnswer(ms, h, r);
    TrackOneMore(ms, h, r);
  }

  lemma HeldSince(ms: Mounts, before: seq<Record>, o: Record, since: seq<Record>, fd: int)
    requires o.dom == 13 && o.op == OPEN && o.fd == fd != -1 && o.s1 != ""
    requires forall k | 0 <= k < |since| :: !Touches(since[k], fd)
    ensures Held(ms, before + [o] + since, fd) == Some(Device(ms, o.s1))
  {
    hide Held, Device;
    var h := before + [o] + since;
    assert h[|before|] == o;
    assert forall k | |before| < k < |h| :: h[k] == since[k - |before| - 1];
    HeldIs(ms, h, fd, |before|);
  }

  /**
   * Main result: after an open, a read, a write, an fsync and the like, and the close, get the device of the path
   * opened, as long as the descriptor was neither opened again nor closed in between; other records get none.
   */
  lemma UseAfterOpen(ms: Mounts, before: seq<Record>, o: Record, since: seq<Record>, r: Record)
    requires o.dom == 13 && o.op == OPEN && o.fd == r.fd != -1 && o.s1 != ""
    requires forall k | 0 <= k < |since| :: !Touches(since[k], r.fd)
    requires !(r.dom == 13 && r.op == OPEN)
    ensures TrackAll(ms, before + [o] + since + [r])
         == TrackAll(ms, before + [o] + since)
          + [if r.dom == 5 || r.dom == 8 || r.dom == 10 || r.dom == 11 || r.dom == 12 || (r.dom == 13 && r.op == CLOSE)
             then r.(device := Cut(Device(ms, o.s1))) else r]
  {
    hide Held, Device, TrackAll, WithDevice;
    LastTracked(ms, before + [o] + since, r);
    HeldSince(ms, before, o, since, r.fd);
    CutDevice(r, Device(ms, o.s1));
  }

  /** The open itself gets the device of its own path. */
  lemma OpenTracked(ms: Mounts, before: seq<Record>, o: Record)
    requires o.dom == 13 && o.op == OPEN && o.fd != -1 && o.s1 != ""
    ensures TrackAll(ms, before + [o]) == TrackAll(ms, before) + [o.(device := Cut(Device(ms, o.s1)))]
  {
    hide Held, Device, TrackAll, WithDevice;
    LastTracked(ms, before, o);
    HeldSince(ms, before, o, [], o.fd);
    assert before + [o] + [] == before + [o];
    CutDevice(o, Device(ms, o.s1));
  }

  /** Before any open of its descriptor, or since its close, a record that is not an open is left as it is. */
  lemma UseUnopened(ms: Mounts, before: seq<Record>, since: seq<Record>, r: Record)
    requires before == [] || var c := before[|before| - 1]; c.dom == 13 && c.op == CLOSE && c.fd == r.fd
    requires forall k | 0 <= k < |since| :: !Touches(since[k], r.fd)
    requires !(r.dom == 13 && r.op == OPEN)
    ensures TrackAll(ms, before + since + [r]) == TrackAll(ms, before + since) + [r]
  {
    hide Device, TrackAll, WithDevice;
    var h := before + since;
    LastTracked(ms, h, r);
    forall j: nat
      ensures !LiveOpen(h, r.fd, j)
    {
      if j < |before| {
        assert h[|before| - 1] == before[|before| - 1];
      } else if j < |h| {
        assert h[j] == since[j - |before|];
      }
    }
  }

  lemma TrackIsAnswer(ms: Mounts, h: seq<Record>, r: Record)
    ensures Track(ms, Table(ms, h), r) == (Table(ms, h + [r]), Answer(ms, h, r))
  {
    var all := h + [r];
    assert all[..|h|] == h;
    assert all[..|all| - 1] == h && all[|all| - 1] == r;
    DevicesAreHistory(ms, all, |h|);
    TrackAllLength(ms, h);
  }

  class DeviceIndex {
    const mounts: Mounts
    var fdToDev: map<int, string>
    ghost var history: seq<Record>   // every record received so far

    ghost predicate Valid()
      reads this
    {
      Sorted(mounts.table) && fdToDev == Table(mounts, history)
    }

    constructor (mounts: Mounts)
      requires Sorted(mounts.table)
      ensures Valid() && history == [] && this.mounts == mounts
    {
      this.mounts := mounts;
      fdToDev, history := map[], [];
    }

    /** path_to_dev(): the iterator loop over the mount table. */
    method PathToDev(path: string) returns (device: string)
      requires Sorted(mounts.table)
      ensures device == Device(mounts, path)
      ensures forall i | 0 <= i < |mounts.table| && mounts.table[i].point <= path
                      && (forall k | 0 <= k < i :: !(mounts.table[k].point <= path)) :: device == mounts.table[i].device
      ensures (forall k | 0 <= k < |mounts.table| :: !(mounts.table[k].point <= path)) ==> device == mounts.root
    {
      var it := 0;
      while it != |mounts.table|
        invariant 0 <= it <= |mounts.table|
        invariant forall k | 0 <= k < it :: !(mounts.table[k].point <= path)
        decreases |mounts.table| - it
      {
        if mounts.table[it].point <= path {
          FirstIsShortest(mounts.table, path, it);
          return mounts.table[it].device;
        }
        it := it + 1;
      }
      ShortestIs(mounts.table, path);
      return mounts.root;
    }

    method RegisterFile(r: Record)
      requires Sorted(mounts.table)
      modifies this`fdToDev
      ensures fdToDev == Registered(mounts, old(fdToDev), r)
    {
      if r.fd != FD_NONE && |r.s1| > 0 {
        var device := PathToDev(r.s1);
        fdToDev := fdToDev[r.fd := device];
      }
    }

    method DeregisterFile(r: Record)
      modifies this`fdToDev
      ensures fdToDev == Deregistered(old(fdToDev), r)
    {
      assert r.fd !in fdToDev ==> fdToDev - {r.fd} == fdToDev;
      if r.fd != FD_NONE {
        if r.fd in fdToDev {
          fdToDev := fdToDev - {r.fd};
        }
      }
    }

    method ResolveFile(r: Record) returns (out: Record)
      ensures out == Resolved(fdToDev, r)
    {
      out := r;
      if r.fd != FD_NONE {
        if r.fd in fdToDev {
          out := WithDevice(out, fdToDev[r.fd]);
        }
      }
    }

    /** One received record, up to the call of the plugin chain. */
    method Receive(r: Record) returns (out: Record)
      requires Valid()
      modifies this
      ensures Valid() && history == old(history) + [r]
      ensures out == Answer(mounts, old(history), r)
    {
      hide Answer, Table, Registered, Deregistered, Resolved;
      TrackIsAnswer(mounts, history, r);
      out := r;
      if r.dom == FILE_OPEN_CLOSE {
        if r.op == OPEN {
          RegisterFile(r);
          out := ResolveFile(out);
        } else if r.op == CLOSE {
          out := ResolveFile(out);
          DeregisterFile(r);
        }
      } else if r.dom == FILE_READ || r.dom == FILE_WRITE || r.dom == FILE_METADATA
             || r.dom == FILE_SPACE || r.dom == SYNCS {
        out := ResolveFile(out);
      }
      history := history + [r];
    }
  }
}
