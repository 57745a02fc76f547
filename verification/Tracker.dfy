/** The tracker's announce bookkeeping: each torrent counts its leechers and seeders,
  * each user counts its incomplete and complete peers over all torrents, and both
  * counts are only ever adjusted by one. */
module Trackers {
  import opened Basics

  type Hash = string

  datatype Key = Key(host: int, uid: int)
  datatype Peer = Peer(left: bool, uid: int, mtime: int)
  datatype File = File(peers: map<Key, Peer>, leechers: int, seeders: int, completed: int, ctime: int, dirty: bool)
  datatype User = User(completes: int, incompletes: int, canLeech: bool, peersLimit: int, torrentsLimit: int,
                       waitTime: int)

  datatype Event = Running | Completed | Started | Stopped
  datatype Input = Input(hash: Hash, host: int, left: int, event: Event)
  datatype Config = Config(offline: bool, anonymous: bool, autoRegister: bool, useSql: bool, keyHasUid: bool)

  datatype Answer =
    | Accepted
    | Offline
    | UnregisteredPass
    | UnregisteredTorrent
    | CanNotLeech
    | WaitTime
    | TorrentsLimit
    | PeersLimit

  // --------------------------------------------------------- what the counters count

  /** The peers of one torrent that still miss data, or do not. */
  ghost function Members(peers: map<Key, Peer>, left: bool): (r: set<Key>) {
    set k | k in peers && peers[k].left == left
  }

  /** A user's peers over all torrents that still miss data, or do not. */
  ghost function Owned(files: map<Hash, File>, uid: int, left: bool): (r: set<(Hash, Key)>) {
    set h, k | h in files && k in files[h].peers && Belongs(files[h].peers[k], uid, left) :: (h, k)
  }

  predicate Belongs(p: Peer, uid: int, left: bool) {
    p.uid == uid && p.left == left
  }

  ghost predicate FileCounts(f: File) {
    f.leechers == |Members(f.peers, true)| && f.seeders == |Members(f.peers, false)|
  }

  /** By how much a user's counts are off. */
  datatype Drift = Drift(incompletes: int, completes: int)

  const NO_DRIFT := Drift(0, 0)

  ghost predicate UserCounts(files: map<Hash, File>, uid: int, u: User, e: Drift) {
    u.incompletes == |Owned(files, uid, true)| + e.incompletes &&
      u.completes == |Owned(files, uid, false)| + e.completes
  }

  /** Every torrent's counts are right, and every registered user's are off by its drift.
    * Uid 0 stands for the anonymous peers, so a user row with uid 0 is not covered. */
  ghost predicate Counted(files: map<Hash, File>, users: map<int, User>, drift: int -> Drift) {
    && (forall h :: h in files ==> FileCounts(files[h]))
    && (forall u :: u in users && u != 0 ==> UserCounts(files, u, users[u], drift(u)))
  }

  // ----------------------------------------------------------- one peer comes or goes

  function Tally(f: File, left: bool, d: int): (r: File) {
    if left then f.(leechers := f.leechers + d) else f.(seeders := f.seeders + d)
  }

  function Credit(users: map<int, User>, uid: int, left: bool, d: int): (r: map<int, User>) {
    if uid !in users then users
    else if left then users[uid := users[uid].(incompletes := users[uid].incompletes + d)]
    else users[uid := users[uid].(completes := users[uid].completes + d)]
  }

  /** Taking away one peer and its counts. */
  lemma Leaves(files: map<Hash, File>, users: map<int, User>, drift: int -> Drift, h: Hash, k: Key, f: File)
    requires Counted(files, users, drift)
    requires h in files && k in files[h].peers
    requires f.peers == files[h].peers - {k}
    requires f.leechers == Tally(files[h], files[h].peers[k].left, -1).leechers
    requires f.seeders == Tally(files[h], files[h].peers[k].left, -1).seeders
    ensures Counted(files[h := f], Credit(users, files[h].peers[k].uid, files[h].peers[k].left, -1), drift)
  {
    var p := files[h].peers[k];
    var after := files[h := f];
    MembersLeave(files[h].peers, k, true);
    MembersLeave(files[h].peers, k, false);
    forall u | u in users && u != 0
      ensures UserCounts(after, u, Credit(users, p.uid, p.left, -1)[u], drift(u))
    {
      OwnedLeave(files, h, k, f, u, true);
      OwnedLeave(files, h, k, f, u, false);
      assert UserCounts(files, u, users[u], drift(u));
    }
  }

  lemma MembersLeave(peers: map<Key, Peer>, k: Key, left: bool)
    requires k in peers
    ensures |Members(peers - {k}, left)| == |Members(peers, left)| - (if peers[k].left == left then 1 else 0)
  {
    assert Members(peers - {k}, left) == Members(peers, left) - {k};
  }

  lemma OwnedLeave(files: map<Hash, File>, h: Hash, k: Key, f: File, u: int, left: bool)
    requires h in files && k in files[h].peers && f.peers == files[h].peers - {k}
    ensures |Owned(files[h := f], u, left)|
         == |Owned(files, u, left)| - (if Belongs(files[h].peers[k], u, left) then 1 else 0)
  {
    hide Belongs;
    var after, before := Owned(files[h := f], u, left), Owned(files, u, left);
    forall g: Hash, j: Key ensures (g, j) in after <==> (g, j) in before && (g, j) != (h, k) {
      if g != h {
        assert (g, j) in after <==> g in files && j in files[g].peers && Belongs(files[g].peers[j], u, left);
      } else {
        assert (g, j) in after <==> j in f.peers && Belongs(f.peers[j], u, left);
      }
    }
    assert after == before - {(h, k)};
    assert (h, k) in before <==> Belongs(files[h].peers[k], u, left);
  }

  /** Adding one peer that was not there and its counts. */
  lemma Joins(files: map<Hash, File>, users: map<int, User>, drift: int -> Drift, h: Hash, k: Key, p: Peer, f: File)
    requires Counted(files, users, drift)
    requires h in files && k !in files[h].peers
    requires p.uid in users || p.uid == 0
    requires f.peers == files[h].peers[k := p]
    requires f.leechers == Tally(files[h], p.left, 1).leechers
    requires f.seeders == Tally(files[h], p.left, 1).seeders
    ensures Counted(files[h := f], Credit(users, p.uid, p.left, 1), drift)
    ensures p.uid == 0 ==> Counted(files[h := f], users, drift)
  {
    var after := files[h := f];
    assert f.peers - {k} == files[h].peers;
    MembersLeave(f.peers, k, true);
    MembersLeave(f.peers, k, false);
    forall u | u in users && u != 0
      ensures UserCounts(after, u, Credit(users, p.uid, p.left, 1)[u], drift(u))
    {
      assert after[h := files[h]] == files;
      OwnedLeave(after, h, k, files[h], u, true);
      OwnedLeave(after, h, k, files[h], u, false);
      assert UserCounts(files, u, users[u], drift(u));
    }
  }

  /** Registering a torrent, or changing what is not counted. */
  lemma SamePeers(files: map<Hash, File>, users: map<int, User>, drift: int -> Drift, h: Hash, f: File)
    requires Counted(files, users, drift)
    requires FileCounts(f) && f.peers == (if h in files then files[h].peers else map[])
    ensures Counted(files[h := f], users, drift)
    ensures forall u, left :: Owned(files[h := f], u, left) == Owned(files, u, left)
  {
    hide FileCounts;
    forall u, left ensures Owned(files[h := f], u, left) == Owned(files, u, left) {
      SameOwned(files, h, f, u, left);
    }
    forall u | u in users && u != 0 ensures UserCounts(files[h := f], u, users[u], drift(u)) {
      assert UserCounts(files, u, users[u], drift(u));
    }
  }

  lemma SameOwned(files: map<Hash, File>, h: Hash, f: File, u: int, left: bool)
    requires f.peers == (if h in files then files[h].peers else map[])
    ensures Owned(files[h := f], u, left) == Owned(files, u, left)
  {
    hide Belongs;
  }

  /** A torrent without peers can go without anyone's counts changing. */
  lemma EmptyGoes(files: map<Hash, File>, users: map<int, User>, drift: int -> Drift, h: Hash)
    requires Counted(files, users, drift) && h in files && files[h].peers == map[]
    ensures Counted(files - {h}, users, drift)
  {
    forall u | u in users && u != 0 ensures UserCounts(files - {h}, u, users[u], drift(u)) {
      assert UserCounts(files, u, users[u], drift(u));
      assert Owned(files - {h}, u, true) == Owned(files, u, true);
      assert Owned(files - {h}, u, false) == Owned(files, u, false);
    }
  }

  // ------------------------------------------------------------------ who is let in

  function NewFile(ctime: int): (f: File) {
    File(map[], 0, 0, 0, ctime, true)
  }

  function PeersOf(files: map<Hash, File>, h: Hash): (r: map<Key, Peer>) {
    if h in files then files[h].peers else map[]
  }

  function KeyOf(c: Config, host: int, uid: int): (k: Key) {
    Key(host, if c.keyHasUid then uid else 0)
  }

  function UidOf(user: Option<int>): (uid: int) {
    if user.Some? then user.value else 0
  }

  /** A user's downloading peers in one torrent. */
  ghost function Leeching(peers: map<Key, Peer>, uid: int): (r: set<Key>) {
    set k | k in peers && peers[k].left && peers[k].uid == uid
  }

  /** When the torrent was first seen; a torrent met for the first time starts with
    * whatever the memory held. */
  function Since(files: map<Hash, File>, h: Hash, now: int, junk: int): (r: int) {
    var c := if h in files then files[h].ctime else junk;
    if c == 0 then now else c
  }

  /** The answer to an announce, by the peers that really exist; `extra` is by how much the user's count of
    * downloads is off. */
  ghost function Ruling(c: Config, files: map<Hash, File>, users: map<int, User>, v: Input, user: Option<int>,
                        now: int, junk: int, extra: int): (r: Answer)
    requires user.Some? ==> user.value in users
  {
    var known := KeyOf(c, v.host, UidOf(user)) in PeersOf(files, v.hash);
    if c.offline then Offline
    else if !c.anonymous && user.None? then UnregisteredPass
    else if !c.autoRegister && v.hash !in files then UnregisteredTorrent
    else if v.left == 0 || user.None? then Accepted
    else
      var u := users[user.value];
      if !u.canLeech then CanNotLeech
      else if u.waitTime != 0 && Since(files, v.hash, now, junk) + u.waitTime > now then WaitTime
      else if known then Accepted
      else if u.torrentsLimit != 0 && |Owned(files, user.value, true)| + extra >= u.torrentsLimit then TorrentsLimit
      else if u.peersLimit != 0 && |Leeching(PeersOf(files, v.hash), user.value)| >= u.peersLimit then PeersLimit
      else Accepted
  }

  /** What each refusal means, and what an accepted announce has passed.  Peers with all the data are never refused
    * for limits, nor are peers the torrent knows. */
  lemma RefusedIff(c: Config, files: map<Hash, File>, users: map<int, User>, v: Input, user: Option<int>,
                   now: int, junk: int, extra: int)
    requires user.Some? ==> user.value in users
    ensures var r := Ruling(c, files, users, v, user, now, junk, extra);
      (r == Offline <==> c.offline) &&
      (r == UnregisteredPass <==> !c.offline && !c.anonymous && user.None?) &&
      (r == UnregisteredTorrent <==>
        !c.offline && (c.anonymous || user.Some?) && !c.autoRegister && v.hash !in files)
    ensures var r := Ruling(c, files, users, v, user, now, junk, extra);
      var open := !c.offline && (c.anonymous || user.Some?) && (c.autoRegister || v.hash in files);
      (v.left == 0 || user.None? ==> (r == Accepted <==> open)) &&
      (v.left != 0 && user.Some? ==>
        var u, known := users[user.value], KeyOf(c, v.host, user.value) in PeersOf(files, v.hash);
        var waits := u.waitTime != 0 && Since(files, v.hash, now, junk) + u.waitTime > now;
        var full := u.torrentsLimit != 0 && |Owned(files, user.value, true)| + extra >= u.torrentsLimit;
        var crowded := u.peersLimit != 0 && |Leeching(PeersOf(files, v.hash), user.value)| >= u.peersLimit;
        (r == CanNotLeech <==> open && !u.canLeech) &&
        (r == WaitTime <==> open && u.canLeech && waits) &&
        (r == TorrentsLimit <==> open && u.canLeech && !waits && !known && full) &&
        (r == PeersLimit <==> open && u.canLeech && !waits && !known && !full && crowded) &&
        (r == Accepted <==> open && u.canLeech && !waits && (known || (!full && !crowded))))
  {
  }

  /** Nothing about a user but its counts differs. */
  ghost predicate SameUsers(before: map<int, User>, after: map<int, User>) {
    && before.Keys == after.Keys
    && (forall u :: u in before ==>
          after[u] == before[u].(completes := after[u].completes, incompletes := after[u].incompletes))
  }

  lemma UsersAlike(users: map<int, User>)
    ensures SameUsers(users, users)
  {
  }

  lemma SameUsersTrans(a: map<int, User>, b: map<int, User>, c: map<int, User>)
    requires SameUsers(a, b) && SameUsers(b, c)
    ensures SameUsers(a, c)
  {
  }

  lemma SameUsersKeys(a: map<int, User>, b: map<int, User>)
    requires SameUsers(a, b)
    ensures a.Keys == b.Keys
  {
  }

  lemma SameUsersCredit(a: map<int, User>, b: map<int, User>, uid: int, left: bool, d: int)
    requires SameUsers(a, b)
    ensures SameUsers(a, Credit(b, uid, left, d))
    ensures b == map[] ==> Credit(b, uid, left, d) == map[]
  {
  }

  function Alive(peers: map<Key, Peer>, t: int): (r: map<Key, Peer>) {
    map k | k in peers && peers[k].mtime >= t :: peers[k]
  }

  /** Sweeping at `t` costs exactly the peers silent since before `t`, and sweeping twice is sweeping at the later
    * time. */
  lemma SweptPeers(peers: map<Key, Peer>, t: int, u: int)
    ensures Alive(peers, t).Items <= peers.Items
    ensures forall k :: k in peers ==> (k !in Alive(peers, t) <==> peers[k].mtime < t)
    ensures Alive(Alive(peers, t), u) == Alive(peers, if t < u then u else t)
  {
    assert Alive(Alive(peers, t), u).Keys == Alive(peers, if t < u then u else t).Keys;
  }

  /** The peers half-way through a sweep: those in `todo` have not been looked at. */
  ghost function Swept(all: map<Key, Peer>, todo: set<Key>, t: int): (r: map<Key, Peer>) {
    map k | k in all && (k in todo || all[k].mtime >= t) :: all[k]
  }

  lemma SweptOne(all: map<Key, Peer>, todo: set<Key>, k: Key, t: int)
    requires k in todo && todo <= all.Keys
    ensures todo <= Swept(all, todo, t).Keys && Swept(all, todo, t)[k] == all[k]
    ensures Swept(all, todo - {k}, t) == if all[k].mtime < t then Swept(all, todo, t) - {k} else Swept(all, todo, t)
  {
  }

  lemma SweptAll(all: map<Key, Peer>, t: int)
    ensures Swept(all, {}, t) == Alive(all, t)
  {
  }

  datatype Row = Row(uid: int, canLeech: bool, peersLimit: int, torrentsLimit: int, waitTime: int)

  method CountLeeching(peers: map<Key, Peer>, uid: int) returns (c: int)
    ensures c == |Leeching(peers, uid)|
  {
    c := 0;
    var todo := peers.Keys;
    ghost var seen: set<Key> := {};
    while todo != {}
      invariant seen + todo == peers.Keys && seen !! todo
      invariant c == |Leeching(peers, uid) * seen|
    {
      var k :| k in todo;
      todo := todo - {k};
      c := c + if peers[k].left && peers[k].uid == uid then 1 else 0;
      if k in Leeching(peers, uid) {
        assert Leeching(peers, uid) * (seen + {k}) == Leeching(peers, uid) * seen + {k};
      } else {
        assert Leeching(peers, uid) * (seen + {k}) == Leeching(peers, uid) * seen;
      }
      seen := seen + {k};
    }
    assert Leeching(peers, uid) * seen == Leeching(peers, uid);
  }

  class Tracker {
    const config: Config
    var files: map<Hash, File>
    var users: map<int, User>
    /** By how much each user's counts are off: not at all, but for users that came when their peers were there. */
    ghost var drift: int -> Drift

    /** Nobody's counts are off. */
    ghost predicate Exact()
      reads this
    {
      forall u :: u in users && u != 0 ==> drift(u) == NO_DRIFT
    }

    ghost predicate Valid()
      reads this
    {
      Counted(files, users, drift) && (!config.useSql ==> users == map[])
    }

    constructor (config: Config)
      ensures Valid() && Exact() && files == map[] && users == map[] && this.config == config
    {
      this.config, files, users := config, map[], map[];
      drift := _ => NO_DRIFT;
    }

    /** One announce. `user` is the user the pass belongs to, `junk` the unset
      * creation time of a torrent registered here. */
    method Announce(v: Input, user: Option<int>, now: int, junk: int) returns (answer: Answer)
      requires Valid() && (user.Some? ==> user.value in users)
      modifies this`files, this`users
      ensures Valid() && SameUsers(old(users), users)
      ensures user != Some(0) ==>
        answer == Ruling(config, old(files), old(users), v, user, now, junk, drift(UidOf(user)).incompletes)
      ensures forall h :: h != v.hash ==>
        (h in files <==> h in old(files)) && (h in files ==> files[h] == old(files)[h])
      ensures answer != Accepted ==> users == old(users) && PeersOf(files, v.hash) == PeersOf(old(files), v.hash)
      ensures (v.hash in old(files) || answer == Accepted) ==> v.hash in files
      ensures answer == Accepted && v.event == Stopped ==>
                PeersOf(files, v.hash) == PeersOf(old(files), v.hash) - {KeyOf(config, v.host, UidOf(user))}
      ensures answer == Accepted && v.event != Stopped ==>
                PeersOf(files, v.hash)
                == PeersOf(old(files), v.hash)[
                     KeyOf(config, v.host, UidOf(user)) := Peer(v.left != 0, UidOf(user), now)]
    {
      hide Counted, Owned, SameUsers, Lacking, Leeching;
      UsersAlike(users);
      ghost var users0 := users;
      if config.offline {
        return Offline;
      }
      if !config.anonymous && user.None? {
        return UnregisteredPass;
      }
      if !config.autoRegister && v.hash !in files {
        return UnregisteredTorrent;
      }
      if v.left != 0 && user.Some? && !users[user.value].canLeech {
        return CanNotLeech;
      }
      Register(v.hash, now, junk);
      if v.left != 0 && user.Some? && users[user.value].waitTime != 0
         && files[v.hash].ctime + users[user.value].waitTime > now {
        return WaitTime;
      }
      var k := KeyOf(config, v.host, UidOf(user));
      if k !in files[v.hash].peers && v.left != 0 && user.Some? {
        answer := Limits(v.hash, user.value);
        if answer != Accepted {
          return;
        }
      }
      CountOut(v.hash, k);
      ghost var users1 := users;
      assert user.Some? ==> user.value in users by {
        SameUsersKeys(users0, users);
      }
      if v.event == Stopped {
        Erase(v.hash, k);
      } else {
        Store(v.hash, k, Peer(v.left != 0, UidOf(user), now), user);
        SameUsersTrans(users0, users1, users);
      }
      Finish(v.hash, v.event);
      return Accepted;
    }

    /** Looks the torrent up, registering it when it is new. */
    method Register(h: Hash, now: int, junk: int)
      requires Valid()
      modifies this`files
      ensures Valid() && h in files && files == old(files)[h := files[h]]
      ensures files[h].peers == PeersOf(old(files), h) && files[h].ctime == Since(old(files), h, now, junk)
      ensures forall u, left :: Owned(files, u, left) == Owned(old(files), u, left)
    {
      var f := if h in files then files[h] else NewFile(junk);
      if f.ctime == 0 {
        f := f.(ctime := now);
      }
      SamePeers(files, users, drift, h, f);
      files := files[h := f];
    }

    /** The limits on a peer that is new to the torrent. */
    method Limits(h: Hash, uid: int) returns (answer: Answer)
      requires Valid() && h in files && uid in users
      ensures uid != 0 ==>
                answer == if users[uid].torrentsLimit != 0 &&
                             |Owned(files, uid, true)| + drift(uid).incompletes >= users[uid].torrentsLimit
                          then TorrentsLimit
                          else if users[uid].peersLimit != 0 &&
                                  |Leeching(files[h].peers, uid)| >= users[uid].peersLimit
                          then PeersLimit
                          else Accepted
    {
      assert uid != 0 ==> UserCounts(files, uid, users[uid], drift(uid));
      if users[uid].torrentsLimit != 0 && users[uid].incompletes >= users[uid].torrentsLimit {
        return TorrentsLimit;
      }
      if users[uid].peersLimit != 0 {
        var c := CountLeeching(files[h].peers, uid);
        if c >= users[uid].peersLimit {
          return PeersLimit;
        }
      }
      return Accepted;
    }

    /** Takes the counts of a known peer back, before its record changes. */
    method CountOut(h: Hash, k: Key)
      requires Valid() && h in files
      modifies this`files, this`users
      ensures h in files && files == old(files)[h := files[h]] && files[h].peers == old(files)[h].peers
      ensures SameUsers(old(users), users) && (!config.useSql ==> users == map[])
      ensures Counted(Lacking(files, h, k), users, drift)
    {
      if k in files[h].peers {
        var p := files[h].peers[k];
        Leaves(files, users, drift, h, k, Tally(files[h], p.left, -1).(peers := files[h].peers - {k}));
        files := files[h := Tally(files[h], p.left, -1)];
        users := Credit(users, p.uid, p.left, -1);
        assert Lacking(files, h, k) ==
          old(files)[h := Tally(old(files)[h], p.left, -1).(peers := files[h].peers - {k})];
      } else {
        assert files[h].peers - {k} == files[h].peers;
        assert files[h := files[h]] == files;
      }
    }

    method Erase(h: Hash, k: Key)
      requires h in files && Counted(Lacking(files, h, k), users, drift)
      modifies this`files
      ensures h in files && files == old(files)[h := files[h]] && files[h].peers == old(files)[h].peers - {k}
      ensures Counted(files, users, drift)
    {
      files := files[h := files[h].(peers := files[h].peers - {k})];
    }

    method Store(h: Hash, k: Key, p: Peer, user: Option<int>)
      requires h in files && Counted(Lacking(files, h, k), users, drift)
      requires p.uid == UidOf(user) && (user.Some? ==> user.value in users)
      modifies this`files, this`users
      ensures h in files && files == old(files)[h := files[h]] && files[h].peers == old(files)[h].peers[k := p]
      ensures Counted(files, users, drift) && SameUsers(old(users), users)
    {
      var f := Tally(files[h].(peers := files[h].peers[k := p]), p.left, 1);
      assert f.peers == Lacking(files, h, k)[h].peers[k := p];
      Joins(Lacking(files, h, k), users, drift, h, k, p, f);
      assert Lacking(files, h, k)[h := f] == files[h := f];
      files := files[h := f];
      if user.Some? {
        users := Credit(users, user.value, p.left, 1);
      }
    }

    method Finish(h: Hash, event: Event)
      requires Counted(files, users, drift) && h in files
      modifies this`files
      ensures Counted(files, users, drift) && h in files
      ensures files == old(files)[h := files[h]] && files[h].peers == old(files)[h].peers
    {
      var f := files[h].(dirty := true);
      if event == Completed {
        f := f.(completed := f.completed + 1);
      }
      SamePeers(files, users, drift, h, f);
      files := files[h := f];
    }

    /** Forgets one peer of a torrent. */
    method Drop(h: Hash, k: Key)
      requires Valid() && h in files && k in files[h].peers
      modifies this`files, this`users
      ensures Valid() && SameUsers(old(users), users)
      ensures h in files && files == old(files)[h := files[h]] && files[h].peers == old(files)[h].peers - {k}
    {
      hide Counted, SameUsers, Lacking;
      CountOut(h, k);
      Erase(h, k);
      MarkDirty(h);
    }

    /** Forgets the peers of one torrent that were last heard of before `t`. */
    method CleanFile(h: Hash, t: int)
      requires Valid() && h in files
      modifies this`files, this`users
      ensures Valid() && SameUsers(old(users), users)
      ensures h in files && files == old(files)[h := files[h]] && files[h].peers == Alive(old(files)[h].peers, t)
    {
      ghost var all, files0, users0 := files[h].peers, files, users;
      var todo := files[h].peers.Keys;
      assert files == files0[h := files[h]] && SameUsers(users0, users) && Swept(all, todo, t) == all;
      hide Counted, Swept, SameUsers;
      while todo != {}
        invariant Valid() && SameUsers(users0, users)
        invariant h in files && files == files0[h := files[h]]
        invariant todo <= all.Keys
        invariant files[h].peers == Swept(all, todo, t)
      {
        var k :| k in todo;
        SweptOne(all, todo, k, t);
        todo := todo - {k};
        if files[h].peers[k].mtime < t {
          ghost var users1 := users;
          Drop(h, k);
          SameUsersTrans(users0, users1, users);
        }
      }
      SweptAll(all, t);
    }

    method MarkDirty(h: Hash)
      requires Counted(files, users, drift) && h in files
      modifies this`files
      ensures Counted(files, users, drift) && h in files
      ensures files == old(files)[h := files[h]] && files[h].peers == old(files)[h].peers
    {
      SamePeers(files, users, drift, h, files[h].(dirty := true));
      files := files[h := files[h].(dirty := true)];
    }

    method CleanUp(t: int)
      requires Valid()
      modifies this`files, this`users
      ensures Valid() && SameUsers(old(users), users)
      ensures files.Keys == old(files).Keys
      ensures forall h :: h in files ==> files[h].peers == Alive(old(files)[h].peers, t)
    {
      ghost var files0, users0 := files, users;
      var todo := files.Keys;
      assert SameUsers(users0, users);
      hide Counted, SameUsers, Alive;
      while todo != {}
        invariant Valid() && SameUsers(users0, users)
        invariant files.Keys == files0.Keys && todo <= files.Keys
        invariant forall h :: h in files ==>
          files[h].peers == if h in todo then files0[h].peers else Alive(files0[h].peers, t)
      {
        var h :| h in todo;
        todo := todo - {h};
        ghost var users1 := users;
        CleanFile(h, t);
        SameUsersTrans(users0, users1, users);
      }
    }

    /** Drops a torrent with all its peers, giving its users their counts back. */
    method RemoveFile(h: Hash)
      requires Valid()
      modifies this`files, this`users
      ensures Valid() && SameUsers(old(users), users) && files == old(files) - {h}
    {
      if h in files {
        ReturnCounts(h);
        files := files - {h};
      } else {
        assert files - {h} == files;
      }
    }

    /** Takes every peer of a torrent off its user's counts. */
    method ReturnCounts(h: Hash)
      requires Valid() && h in files
      modifies this`users
      ensures SameUsers(old(users), users) && (!config.useSql ==> users == map[])
      ensures Counted(files - {h}, users, drift)
    {
      ghost var users0 := users;
      var peers := files[h].peers;
      var todo := peers.Keys;
      ghost var g := files[h];
      assert files[h := g] == files;
      assert SameUsers(users0, users);
      hide Counted, SameUsers, Credit, Tally;
      while todo != {}
        invariant todo == g.peers.Keys && todo <= peers.Keys && (forall k :: k in todo ==> g.peers[k] == peers[k])
        invariant Counted(files[h := g], users, drift)
        invariant SameUsers(users0, users) && (!config.useSql ==> users == map[])
      {
        var k :| k in todo;
        todo := todo - {k};
        var p := peers[k];
        ghost var t := Tally(g, p.left, -1);
        ghost var g' := File(g.peers - {k}, t.leechers, t.seeders, t.completed, t.ctime, t.dirty);
        Leaves(files[h := g], users, drift, h, k, g');
        assert files[h := g][h := g'] == files[h := g'];
        SameUsersCredit(users0, users, p.uid, p.left, -1);
        users := Credit(users, p.uid, p.left, -1);
        g := g';
      }
      assert g.peers == map[];
      EmptyGoes(files[h := g], users, drift, h);
      assert files[h := g] - {h} == files - {h};
    }

    /** The torrents flagged in the database are dropped. */
    method RemoveFlagged(rows: seq<Hash>)
      requires Valid()
      modifies this`files, this`users
      ensures Valid() && SameUsers(old(users), users)
      ensures files == if config.autoRegister then old(files) else old(files) - (set h | h in rows)
    {
      if !config.autoRegister {
        ghost var files0, users0 := files, users;
        ghost var gone: set<Hash> := {};
        var i := 0;
        while i < |rows|
          invariant i <= |rows|
          invariant Valid() && SameUsers(users0, users)
          invariant forall h :: h in gone <==> h in rows[..i]
          invariant files == files0 - gone
        {
          hide Counted, SameUsers;
          ghost var users1 := users;
          RemoveFile(rows[i]);
          SameUsersTrans(users0, users1, users);
          gone := gone + {rows[i]};
          i := i + 1;
        }
        assert rows[..i] == rows && gone == set h | h in rows;
      }
    }

    /** The list of torrents in a text file: without a database there are no users,
      * so torrents can go without giving counts back. */
    method ReadList(lines: seq<Hash>, junk: int)
      requires Valid() && !config.useSql && !config.autoRegister
      modifies this`files
      ensures Valid()
      ensures forall h :: h in files <==> h in lines && |h| == 20
      ensures forall h :: h in files ==> files[h].peers == PeersOf(old(files), h)
    {
      hide Counted;
      ghost var files0 := files;
      var listed: set<Hash> := {};
      var i := 0;
      while i < |lines|
        invariant i <= |lines|
        invariant forall h :: h in listed <==> h in lines[..i] && |h| == 20
        invariant listed + files0.Keys <= files.Keys
        invariant Valid() && forall h :: h in files ==> files[h].peers == PeersOf(files0, h)
      {
        if |lines[i]| == 20 {
          List(lines[i], junk);
          listed := listed + {lines[i]};
        }
        i := i + 1;
      }
      assert lines[..i] == lines;
      files := Keep(files, listed);
    }

    method List(h: Hash, junk: int)
      requires Valid()
      modifies this`files
      ensures Valid() && h in files && files == old(files)[h := files[h]] && files[h].peers == PeersOf(old(files), h)
    {
      if h !in files {
        SamePeers(files, users, drift, h, NewFile(junk));
        files := files[h := NewFile(junk)];
      } else {
        assert files == files[h := files[h]];
      }
    }

    /** Reads the user table: rows make or update users, users without a row go. A user that
      * comes, or comes back, starts from zero, so its counts are off from then on by the peers
      * it already has. */
    method ReadUsers(rows: seq<Row>)
      requires Valid() && config.useSql
      modifies this`users, this`drift
      ensures Valid() && forall u :: u in users <==> exists r :: r in rows && r.uid == u
      ensures forall u :: u in users ==> exists r :: r in rows && r.uid == u && FromRow(users[u], r)
      ensures forall u :: u in users ==>
                drift(u) == if u in old(users) then old(drift)(u) else Unseen(files, u)
      ensures old(Exact()) ==>
        (Exact() <==> forall u :: u in users && u != 0 && u !in old(users) ==>
                        Owned(files, u, true) == {} && Owned(files, u, false) == {})
    {
      hide Counted, Owned;
      ghost var users0 := users;
      var all := users;
      var listed: set<int> := {};
      var i := 0;
      while i < |rows|
        invariant i <= |rows|
        invariant forall u :: u in listed <==> exists j :: 0 <= j < i && rows[j].uid == u
        invariant listed <= all.Keys
        invariant forall u :: u in all ==> SameCounts(all[u], if u in users0 then users0[u] else NewUser())
        invariant forall u :: u in users0 ==> u in all
        invariant forall u :: u in listed ==> exists j :: 0 <= j < i && rows[j].uid == u && FromRow(all[u], rows[j])
      {
        var r := rows[i];
        var u := if r.uid in all then all[r.uid] else NewUser();
        all := all[r.uid := User(u.completes, u.incompletes, r.canLeech, r.peersLimit, r.torrentsLimit, r.waitTime)];
        listed := listed + {r.uid};
        i := i + 1;
      }
      users := map u | u in all && u in listed :: all[u];
      ghost var fs, was := files, drift;
      drift := u => if u in users0 then was(u) else Unseen(fs, u);
      ReadCounts(files, users0, was, users, drift);
      forall u ensures Unseen(files, u) == NO_DRIFT <==> Owned(files, u, true) == {} && Owned(files, u, false) == {} {
      }
    }
  }

  function Keep(files: map<Hash, File>, listed: set<Hash>): (r: map<Hash, File>)
    ensures forall drift :: Counted(files, map[], drift) ==> Counted(r, map[], drift)
  {
    map h | h in files && h in listed :: files[h]
  }

  function NewUser(): (u: User) {
    User(0, 0, true, 0, 0, 0)
  }

  /** The user may do what its row says. */
  predicate FromRow(u: User, r: Row) {
    u.canLeech == r.canLeech && u.peersLimit == r.peersLimit && u.torrentsLimit == r.torrentsLimit &&
      u.waitTime == r.waitTime
  }

  predicate SameCounts(u: User, v: User) {
    u.completes == v.completes && u.incompletes == v.incompletes
  }

  /** The drift of a user with zero counts: the peers it has. */
  ghost function Unseen(files: map<Hash, File>, uid: int): (e: Drift) {
    Drift(-|Owned(files, uid, true)|, -|Owned(files, uid, false)|)
  }

  lemma ReadCounts(files: map<Hash, File>, before: map<int, User>, was: int -> Drift, after: map<int, User>,
                   drift: int -> Drift)
    requires Counted(files, before, was)
    requires forall u :: u in after ==> SameCounts(after[u], if u in before then before[u] else NewUser())
    requires forall u :: u in after ==> drift(u) == if u in before then was(u) else Unseen(files, u)
    ensures Counted(files, after, drift)
  {
    hide Owned;
    forall u | u in after && u != 0 ensures UserCounts(files, u, after[u], drift(u)) {
      assert u in before ==> UserCounts(files, u, before[u], was(u));
    }
  }

  /** A run that reaches such a drift and keeps it: user 7 downloads, is dropped from the user table and put back,
    * and stops; it then counts -1 downloads and has no peer at all. */
  method DroppedUser(hash: Hash, now: int, junk: int) returns (incompletes: int, peers: map<Key, Peer>)
    ensures incompletes == -1 && peers == map[]
  {
    hide Counted, Lacking, FileCounts, Leeching, Owned, PeersOf;
    var row := Row(7, true, 0, 0, 0);
    var t := OneDownload(hash, now, junk);
    t.ReadUsers([]);
    t.ReadUsers([row]);
    assert row in [row] && 7 in t.users && t.drift(7) == Drift(-1, 0);
    var answer := t.Announce(Input(hash, 1, 0, Stopped), Some(7), now, junk);
    PeersHere(t.files, hash);
    assert t.files[hash].peers == map[];
    NoPeer(t.files, hash);
    UserOf(t, 7);
    incompletes, peers := t.users[7].incompletes, t.files[hash].peers;
  }

  /** A tracker with one user, 7, that downloads one torrent. */
  method OneDownload(hash: Hash, now: int, junk: int) returns (t: Tracker)
    ensures fresh(t) && t.Valid() && t.config == Config(false, true, true, true, true)
    ensures t.files.Keys == {hash} && PeersOf(t.files, hash) == map[Key(1, 7) := Peer(true, 7, now)]
    ensures Unseen(t.files, 7) == Drift(-1, 0)
  {
    hide Counted, Lacking, FileCounts, Leeching, Owned;
    var row := Row(7, true, 0, 0, 0);
    t := new Tracker(Config(false, true, true, true, true));
    t.ReadUsers([row]);
    assert row in [row] && 7 in t.users && FromRow(t.users[7], row);
    var answer := t.Announce(Input(hash, 1, 100, Started), Some(7), now, junk);
    assert answer == Accepted && t.files.Keys == {hash};
    OnePeer(t.files, hash, Key(1, 7), Peer(true, 7, now));
  }

  lemma PeersHere(files: map<Hash, File>, h: Hash)
    requires h in files
    ensures PeersOf(files, h) == files[h].peers
  {
  }

  lemma OnePeer(files: map<Hash, File>, h: Hash, k: Key, p: Peer)
    requires files.Keys == {h} && files[h].peers == map[k := p]
    ensures |Owned(files, p.uid, p.left)| == 1 && |Owned(files, p.uid, !p.left)| == 0
  {
    assert Owned(files, p.uid, p.left) == {(h, k)};
    assert Owned(files, p.uid, !p.left) == {};
  }

  lemma NoPeer(files: map<Hash, File>, h: Hash)
    requires files.Keys == {h} && files[h].peers == map[]
    ensures forall u, left :: Owned(files, u, left) == {}
  {
  }

  lemma UserOf(t: Tracker, uid: int)
    requires t.Valid() && uid in t.users && uid != 0
    ensures UserCounts(t.files, uid, t.users[uid], t.drift(uid))
  {
  }

  /** The torrents without one peer's record, its torrent's counts as they are. */
  function Lacking(files: map<Hash, File>, h: Hash, k: Key): (r: map<Hash, File>)
    requires h in files
  {
    files[h := files[h].(peers := files[h].peers - {k})]
  }
}
