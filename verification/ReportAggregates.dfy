// How the report turns search results into its lists: active sessions by command
// count, and commands grouped by client fingerprint.
module ReportAggregates {
  import opened Common
  import opened StableOrder

  // ---------- Sessions ----------

  datatype SessionBucket = SessionBucket(key: string, logins: int, commands: int, ips: seq<string>, users: seq<string>)

  datatype SessionStat = SessionStat(fp: string, ip: string, user: string, logins: int, commands: int)

  function StatOf(b: SessionBucket): SessionStat {
    SessionStat(b.key, if b.ips == [] then "" else b.ips[0], JoinWith(", ", b.users), b.logins, b.commands)
  }

  predicate IsActive(b: SessionBucket) {
    b.logins != 0 && b.commands != 0
  }

  function StatsOf(buckets: seq<SessionBucket>): (stats: seq<SessionStat>)
    ensures |stats| == |buckets|
  {
    seq(|buckets|, k requires 0 <= k < |buckets| => StatOf(buckets[k]))
  }

  predicate MoreCommands(a: SessionStat, b: SessionStat) {
    a.commands > b.commands
  }

  function SessionStats(buckets: seq<SessionBucket>): seq<SessionStat> {
    StableSort(MoreCommands, StatsOf(Filter(IsActive, buckets)))
  }

  /** The loop that skips inactive buckets. */
  method ActiveStats(buckets: seq<SessionBucket>) returns (stats: seq<SessionStat>)
    ensures stats == StatsOf(Filter(IsActive, buckets))
  {
    hide Filter, StatOf;
    stats := [];
    for i := 0 to |buckets|
      invariant stats == StatsOf(Filter(IsActive, buckets[..i]))
    {
      FilterStep(IsActive, buckets, i);
      if buckets[i].logins == 0 || buckets[i].commands == 0 {
        continue;
      }
      stats := stats + [StatOf(buckets[i])];
    }
    assert buckets[..|buckets|] == buckets;
  }

  method ParseSessionAgg(buckets: seq<SessionBucket>) returns (stats: seq<SessionStat>)
    ensures stats == SessionStats(buckets)
  {
    var active := ActiveStats(buckets);
    var a := new SessionStat[|active|](i requires 0 <= i < |active| => active[i]);
    assert a[..] == active;
    InsertionSort(MoreCommands, a);
    stats := a[..];
  }

  /** The sessions reported are those of the active buckets, busiest first, equally busy
      ones in input order, and that pins the list down. */
  lemma SessionsAreTheActiveBucketsByCommands(buckets: seq<SessionBucket>)
    ensures var active := StatsOf(Filter(IsActive, buckets));
            && StableArrangement(MoreCommands, active, SessionStats(buckets))
            && (forall r :: StableArrangement(MoreCommands, active, r) ==> r == SessionStats(buckets))
            && (forall i, j :: 0 <= i < j < |SessionStats(buckets)| ==>
                  SessionStats(buckets)[i].commands >= SessionStats(buckets)[j].commands)
  {
    var active, stats := StatsOf(Filter(IsActive, buckets)), SessionStats(buckets);
    assert forall x, y, z :: Coherent(MoreCommands, x, y, z);
    SortIsStable(MoreCommands, active);
    forall r | StableArrangement(MoreCommands, active, r)
      ensures r == stats
    {
      OnlyTheSortArranges(MoreCommands, active, r);
    }
    assert forall i, j :: 0 <= i < j < |stats| ==> !MoreCommands(stats[j], stats[i]);
  }

  // ---------- Sessions, said of the buckets ----------

  predicate Busier(a: SessionBucket, b: SessionBucket) {
    a.commands > b.commands
  }

  /** A bucket with a login and a command, and `n` commands. */
  function ActiveWith(n: int): SessionBucket -> bool {
    (b: SessionBucket) => b.logins != 0 && b.commands != 0 && b.commands == n
  }

  function With(n: int): SessionBucket -> bool {
    (b: SessionBucket) => b.commands == n
  }

  /** The session tells of its bucket: key, numbers, first address, and all users. */
  predicate TellsOf(s: SessionStat, b: SessionBucket) {
    && s.fp == b.key && s.logins == b.logins && s.commands == b.commands
    && s.user == JoinWith(", ", b.users)
    && (b.ips == [] ==> s.ip == "") && (b.ips != [] ==> s.ip == b.ips[0])
  }

  lemma {:induction false} InsertMapped(bs: seq<SessionBucket>, b: SessionBucket)
    ensures Insert(MoreCommands, StatsOf(bs), StatOf(b)) == StatsOf(Insert(Busier, bs, b))
  {
    if bs == [] || !Busier(b, bs[|bs| - 1]) {
      assert StatsOf(bs + [b]) == StatsOf(bs) + [StatOf(b)];
    } else {
      InsertMapped(bs[..|bs| - 1], b);
      assert StatsOf(bs)[..|bs| - 1] == StatsOf(bs[..|bs| - 1]);
    }
  }

  lemma {:induction false} SortMapped(bs: seq<SessionBucket>)
    ensures StableSort(MoreCommands, StatsOf(bs)) == StatsOf(StableSort(Busier, bs))
  {
    if bs != [] {
      var init, last := bs[..|bs| - 1], bs[|bs| - 1];
      SortMapped(init);
      assert StatsOf(bs)[..|bs| - 1] == StatsOf(init) && StatsOf(bs)[|bs| - 1] == StatOf(last);
      InsertMapped(StableSort(Busier, init), last);
    }
  }

  lemma BusierSorts(bs: seq<SessionBucket>)
    ensures StableArrangement(Busier, bs, StableSort(Busier, bs))
  {
    assert forall x, y, z :: Coherent(Busier, x, y, z);
    SortIsStable(Busier, bs);
  }

  lemma SortedBuckets(bs: seq<SessionBucket>)
    ensures forall i, j :: 0 <= i < j < |StableSort(Busier, bs)| ==>
      StableSort(Busier, bs)[i].commands >= StableSort(Busier, bs)[j].commands
  {
    BusierSorts(bs);
    var r := StableSort(Busier, bs);
    assert forall i, j :: 0 <= i < j < |r| ==> !Busier(r[j], r[i]);
  }

  lemma TiesAreEquallyBusy(bs: seq<SessionBucket>, x: SessionBucket)
    ensures Filter(Tied(Busier, x), bs) == Filter(With(x.commands), bs)
  {
    forall y
      ensures Tied(Busier, x)(y) == With(x.commands)(y)
    {
      assert Busier(x, y) || Busier(y, x) || x.commands == y.commands;
    }
    FilterAgree(Tied(Busier, x), With(x.commands), bs);
  }

  lemma NoneWith(bs: seq<SessionBucket>, n: int)
    requires forall x :: x in bs ==> x.commands != n
    ensures Filter(With(n), bs) == []
  {
    NothingKept(With(n), bs);
  }

  lemma EquallyBusy(bs: seq<SessionBucket>, n: int)
    ensures Filter(With(n), StableSort(Busier, bs)) == Filter(With(n), bs)
  {
    hide Filter, StableSort, Tied, With;
    BusierSorts(bs);
    var r := StableSort(Busier, bs);
    SameElements(r, bs);
    if x :| x in bs && x.commands == n {
      TiesAreEquallyBusy(r, x);
      TiesAreEquallyBusy(bs, x);
    } else {
      NoneWith(bs, n);
      NoneWith(r, n);
    }
  }

  lemma {:induction false} ActiveFilter(buckets: seq<SessionBucket>, n: int)
    ensures Filter(With(n), Filter(IsActive, buckets)) == Filter(ActiveWith(n), buckets)
  {
    if buckets != [] {
      var init, last := buckets[..|buckets| - 1], buckets[|buckets| - 1];
      ActiveFilter(init, n);
      FilterConcat(With(n), Filter(IsActive, init), if IsActive(last) then [last] else []);
    }
  }

  /** The report lists one session for each bucket with a login and a command, as often as the
      bucket stands in the input, telling the bucket's own numbers, addresses and users;
      busiest first, and equally busy ones in input order. */
  lemma SessionsTellOfBuckets(buckets: seq<SessionBucket>) returns (kept: seq<SessionBucket>)
    ensures |SessionStats(buckets)| == |kept|
    ensures forall k :: 0 <= k < |kept| ==> TellsOf(SessionStats(buckets)[k], kept[k])
    ensures forall b ::
      multiset(kept)[b] == if b.logins != 0 && b.commands != 0 then multiset(buckets)[b] else 0
    ensures forall i, j :: 0 <= i < j < |kept| ==> kept[i].commands >= kept[j].commands
    ensures forall n :: Filter(With(n), kept) == Filter(ActiveWith(n), buckets)
  {
    var active := Filter(IsActive, buckets);
    kept := StableSort(Busier, active);
    SortMapped(active);
    SortPermutes(Busier, active);
    forall b
      ensures multiset(kept)[b] == if b.logins != 0 && b.commands != 0 then multiset(buckets)[b] else 0
    {
      FilterMultiplicity(IsActive, buckets, b);
    }
    SortedBuckets(active);
    forall n
      ensures Filter(With(n), kept) == Filter(ActiveWith(n), buckets)
    {
      EquallyBusy(active, n);
      ActiveFilter(buckets, n);
    }
  }

  // ---------- Commands ----------

  /** One search hit. `time` is its parsed time, or the zero time when it has none. */
  datatype Hit = Hit(fp: string, time: int, ip: string, user: string, db: string, sql: string)

  datatype Event = Event(time: int, ip: string, user: string, db: string, sql: string)

  datatype Group = Group(fp: string, ip: string, user: string, commands: seq<Event>)

  predicate IsKept(h: Hit) {
    h.fp != "" && h.sql != ""
  }

  function HasFp(fp: string): Hit -> bool {
    (h: Hit) => h.fp == fp
  }

  function FirstIp(hits: seq<Hit>): string {
    if hits == [] then ""
    else
      var ip := FirstIp(hits[..|hits| - 1]);
      if ip != "" then ip else hits[|hits| - 1].ip
  }

  /** The users of a group in one text: each new one appended unless already a part of it. */
  function UserText(hits: seq<Hit>): string {
    if hits == [] then ""
    else
      var text, user := UserText(hits[..|hits| - 1]), hits[|hits| - 1].user;
      if text == "" then user
      else if user != "" && !Contains(text, user) then text + ", " + user
      else text
  }

  function EventOf(h: Hit): Event {
    Event(h.time, h.ip, h.user, h.db, h.sql)
  }

  function EventsOf(hits: seq<Hit>): (events: seq<Event>)
    ensures |events| == |hits|
    ensures forall k :: 0 <= k < |hits| ==> events[k] == EventOf(hits[k])
  {
    seq(|hits|, k requires 0 <= k < |hits| => EventOf(hits[k]))
  }

  /** The fingerprints of the hits, each once, in order of first appearance. */
  function FirstSeen(hits: seq<Hit>): (fps: seq<string>)
    ensures forall fp :: fp in fps <==> exists h :: h in hits && h.fp == fp
  {
    if hits == [] then []
    else
      var fps, last := FirstSeen(hits[..|hits| - 1]), hits[|hits| - 1];
      assert hits == hits[..|hits| - 1] + [last];
      if last.fp in fps then fps else fps + [last.fp]
  }

  function GroupOf(fp: string, hits: seq<Hit>): Group {
    var own := Filter(HasFp(fp), hits);
    Group(fp, FirstIp(own), UserText(own), EventsOf(own))
  }

  /** One group per fingerprint, built from the kept hits that carry it. */
  function GroupsOf(kept: seq<Hit>): (groups: seq<Group>)
    ensures |groups| == |FirstSeen(kept)|
    ensures forall k :: 0 <= k < |groups| ==> groups[k] == GroupOf(FirstSeen(kept)[k], kept)
  {
    seq(|FirstSeen(kept)|, k requires 0 <= k < |FirstSeen(kept)| => GroupOf(FirstSeen(kept)[k], kept))
  }

  lemma {:induction false} FirstSeenDistinct(hits: seq<Hit>, i: nat, j: nat)
    requires i < j < |FirstSeen(hits)|
    ensures FirstSeen(hits)[i] != FirstSeen(hits)[j]
  {
    var fps := FirstSeen(hits[..|hits| - 1]);
    if j < |fps| {
      FirstSeenDistinct(hits[..|hits| - 1], i, j);
    }
  }

  /** What a hit adds to its group. */
  function Extended(g: Group, h: Hit): Group {
    Group(
      g.fp,
      if g.ip != "" then g.ip else h.ip,
      if g.user == "" then h.user
      else if h.user != "" && !Contains(g.user, h.user) then g.user + ", " + h.user
      else g.user,
      g.commands + [EventOf(h)])
  }

  lemma TextsExtend(own: seq<Hit>, h: Hit)
    ensures FirstIp(own + [h]) == if FirstIp(own) != "" then FirstIp(own) else h.ip
    ensures UserText(own + [h])
         == if UserText(own) == "" then h.user
            else if h.user != "" && !Contains(UserText(own), h.user) then UserText(own) + ", " + h.user
            else UserText(own)
    ensures EventsOf(own + [h]) == EventsOf(own) + [EventOf(h)]
  {
  }

  lemma GroupExtends(fp: string, hits: seq<Hit>, h: Hit)
    ensures GroupOf(fp, hits + [h]) == if h.fp == fp then Extended(GroupOf(fp, hits), h) else GroupOf(fp, hits)
  {
    hide Filter, FirstIp, UserText, Contains;
    FilterAppend(HasFp(fp), hits, h);
    TextsExtend(Filter(HasFp(fp), hits), h);
  }

  lemma NoHitsNoFps()
    ensures FirstSeen([]) == [] && GroupsOf([]) == []
  {
  }

  lemma FirstSeenExtends(hits: seq<Hit>, h: Hit)
    ensures FirstSeen(hits + [h]) == if h.fp in FirstSeen(hits) then FirstSeen(hits) else FirstSeen(hits) + [h.fp]
  {
  }

  /** A fingerprint not seen before has an empty group. */
  lemma UnseenGroup(fp: string, hits: seq<Hit>)
    requires fp !in FirstSeen(hits)
    ensures GroupOf(fp, hits) == Group(fp, "", "", [])
  {
  }

  /** Taking in one more hit of a known fingerprint touches only its group. */
  lemma KnownGroupExtends(hits: seq<Hit>, h: Hit, idx: nat)
    requires idx < |FirstSeen(hits)| && FirstSeen(hits)[idx] == h.fp
    ensures FirstSeen(hits + [h]) == FirstSeen(hits)
    ensures GroupsOf(hits + [h]) == GroupsOf(hits)[idx := Extended(GroupsOf(hits)[idx], h)]
  {
    hide FirstSeen, GroupOf, Extended;
    FirstSeenExtends(hits, h);
    var fps := FirstSeen(hits);
    forall k | 0 <= k < |fps|
      ensures GroupsOf(hits + [h])[k] == if k == idx then Extended(GroupsOf(hits)[idx], h) else GroupsOf(hits)[k]
    {
      GroupExtends(fps[k], hits, h);
      if k < idx {
        FirstSeenDistinct(hits, k, idx);
      } else if idx < k {
        FirstSeenDistinct(hits, idx, k);
      }
    }
  }

  /** A hit of a new fingerprint starts a group at the end. */
  lemma NewGroupAppended(hits: seq<Hit>, h: Hit)
    requires h.fp !in FirstSeen(hits)
    ensures FirstSeen(hits + [h]) == FirstSeen(hits) + [h.fp]
    ensures GroupsOf(hits + [h]) == GroupsOf(hits) + [Extended(Group(h.fp, h.ip, h.user, []), h)]
  {
    hide FirstSeen, GroupOf;
    FirstSeenExtends(hits, h);
    var fps := FirstSeen(hits);
    UnseenGroup(h.fp, hits);
    assert h.user <= h.user[0..];
    forall k | 0 <= k <= |fps|
      ensures GroupsOf(hits + [h])[k]
           == if k == |fps| then Extended(Group(h.fp, h.ip, h.user, []), h) else GroupsOf(hits)[k]
    {
      GroupExtends((fps + [h.fp])[k], hits, h);
    }
  }

  /** The end of the loop body: fills in what the group lacks and appends the event. */
  method AddToGroup(group: Group, h: Hit) returns (g: Group)
    ensures g == Extended(group, h)
  {
    g := group;
    if g.ip == "" && h.ip != "" {
      g := g.(ip := h.ip);
    }
    if g.user == "" && h.user != "" {
      g := g.(user := h.user);
    } else if h.user != "" && !Contains(g.user, h.user) {
      g := g.(user := g.user + ", " + h.user);
    }
    g := g.(commands := g.commands + [EventOf(h)]);
  }

  /** The index map sends each fingerprint seen so far to the position of its group. */
  ghost predicate Indexes(byFp: map<string, nat>, kept: seq<Hit>) {
    && (forall fp :: fp in byFp <==> fp in FirstSeen(kept))
    && forall fp :: fp in byFp ==> byFp[fp] < |FirstSeen(kept)| && FirstSeen(kept)[byFp[fp]] == fp
  }

  /** The loop body for a hit that is kept. */
  method TakeHit(groups: seq<Group>, byFp: map<string, nat>, h: Hit, ghost kept: seq<Hit>)
    returns (groups': seq<Group>, byFp': map<string, nat>)
    requires groups == GroupsOf(kept) && Indexes(byFp, kept)
    ensures groups' == GroupsOf(kept + [h]) && Indexes(byFp', kept + [h])
  {
    hide FirstSeen, GroupOf, Extended;
    groups', byFp' := groups, byFp;
    var idx: nat;
    if h.fp in byFp {
      idx := byFp[h.fp];
      KnownGroupExtends(kept, h, idx);
    } else {
      NewGroupAppended(kept, h);
      groups' := groups + [Group(h.fp, h.ip, h.user, [])];
      idx := |groups'| - 1;
      byFp' := byFp[h.fp := idx];
    }
    var g := AddToGroup(groups'[idx], h);
    groups' := groups'[idx := g];
  }

  method ParseCommandHits(hits: seq<Hit>) returns (groups: seq<Group>)
    ensures groups == GroupsOf(Filter(IsKept, hits))
  {
    hide FirstSeen, GroupOf, GroupsOf, Filter;
    groups := [];
    var byFp: map<string, nat> := map[];
    ghost var kept: seq<Hit> := [];
    NoHitsNoFps();
    for i := 0 to |hits|
      invariant kept == Filter(IsKept, hits[..i])
      invariant groups == GroupsOf(kept) && Indexes(byFp, kept)
    {
      var h := hits[i];
      FilterStep(IsKept, hits, i);
      if h.fp == "" || h.sql == "" {
        continue;
      }
      groups, byFp := TakeHit(groups, byFp, h, kept);
      kept := kept + [h];
    }
    assert hits[..|hits|] == hits;
  }

  // ---------- The groups partition the kept hits ----------

  /** The hits of the given fingerprints, class after class. */
  function Classes(fps: seq<string>, kept: seq<Hit>): seq<Hit> {
    if fps == [] then [] else Classes(fps[..|fps| - 1], kept) + Filter(HasFp(fps[|fps| - 1]), kept)
  }

  lemma {:induction false} ClassMultiplicity(fps: seq<string>, kept: seq<Hit>, h: Hit)
    requires forall i, j :: 0 <= i < j < |fps| ==> fps[i] != fps[j]
    ensures multiset(Classes(fps, kept))[h] == if h.fp in fps then multiset(kept)[h] else 0
  {
    if fps != [] {
      var init, last := fps[..|fps| - 1], fps[|fps| - 1];
      ClassMultiplicity(init, kept, h);
      FilterMultiplicity(HasFp(last), kept, h);
      assert h.fp in fps <==> h.fp in init || h.fp == last;
    }
  }

  function TotalCommands(groups: seq<Group>): nat {
    if groups == [] then 0 else TotalCommands(groups[..|groups| - 1]) + |groups[|groups| - 1].commands|
  }

  lemma {:induction false} TotalIsClasses(fps: seq<string>, kept: seq<Hit>, groups: seq<Group>)
    requires |groups| == |fps| && forall k :: 0 <= k < |fps| ==> groups[k] == GroupOf(fps[k], kept)
    ensures TotalCommands(groups) == |Classes(fps, kept)|
  {
    if fps != [] {
      TotalIsClasses(fps[..|fps| - 1], kept, groups[..|groups| - 1]);
    }
  }

  /** The groups have distinct fingerprints, together hold every kept hit exactly once, and
      each holds exactly the hits of its fingerprint in input order. */
  lemma GroupsPartitionKeptHits(kept: seq<Hit>)
    ensures var groups, fps := GroupsOf(kept), FirstSeen(kept);
            && (forall i, j :: 0 <= i < j < |groups| ==> groups[i].fp != groups[j].fp)
            && (forall k :: 0 <= k < |groups| ==> groups[k].commands == EventsOf(Filter(HasFp(groups[k].fp), kept)))
            && multiset(Classes(fps, kept)) == multiset(kept)
            && TotalCommands(groups) == |kept|
  {
    var fps := FirstSeen(kept);
    forall i, j | 0 <= i < j < |fps|
      ensures fps[i] != fps[j]
    {
      FirstSeenDistinct(kept, i, j);
    }
    forall h
      ensures multiset(Classes(fps, kept))[h] == multiset(kept)[h]
    {
      ClassMultiplicity(fps, kept, h);
      assert h in multiset(kept) ==> h in kept;
    }
    assert multiset(Classes(fps, kept)) == multiset(kept);
    SameElements(Classes(fps, kept), kept);
    TotalIsClasses(fps, kept, GroupsOf(kept));
  }

  // ---------- Users ----------

  lemma ContainsExtends(s: string, part: string, tail: string)
    requires Contains(s, part)
    ensures Contains(s + tail, part)
  {
    var i :| 0 <= i <= |s| && part <= s[i..];
    assert (s + tail)[i..] == s[i..] + tail;
  }

  lemma ContainsEnd(s: string, part: string)
    ensures Contains(s + part, part)
  {
    assert (s + part)[|s|..] == part;
  }

  /** Every user of a group occurs in the group's user text. */
  lemma {:induction false} EveryUserIsNamed(hits: seq<Hit>, k: nat)
    requires k < |hits|
    ensures Contains(UserText(hits), hits[k].user)
  {
    var init, user := hits[..|hits| - 1], hits[|hits| - 1].user;
    var text := UserText(init);
    if k < |init| {
      EveryUserIsNamed(init, k);
      if text == "" {
        assert init[k].user == "";
        assert user[0..] == user;
      } else if user != "" && !Contains(text, user) {
        assert text + (", " + user) == text + ", " + user;
        ContainsExtends(text, init[k].user, ", " + user);
      }
    } else if text == "" {
      ContainsEnd("", user);
      assert "" + user == user;
    } else if user == "" {
      assert user <= text[0..];
    } else if !Contains(text, user) {
      ContainsEnd(text + ", ", user);
    }
  }

  // ---------- Times ----------

  predicate Later(a: Hit, b: Hit) {
    a.time > b.time
  }

  lemma {:induction false} FirstOfFilter(fp: string, hits: seq<Hit>, i: nat)
    requires i < |hits| && hits[i].fp == fp && forall j :: 0 <= j < i ==> hits[j].fp != fp
    ensures Filter(HasFp(fp), hits) != [] && Filter(HasFp(fp), hits)[0] == hits[i]
  {
    var init := hits[..|hits| - 1];
    if i < |init| {
      FirstOfFilter(fp, init, i);
    } else {
      NothingKept(HasFp(fp), init);
    }
  }

  lemma {:induction false} FirstWith(hits: seq<Hit>, fp: string) returns (i: nat)
    requires fp in FirstSeen(hits)
    ensures i < |hits| && hits[i].fp == fp && forall k :: 0 <= k < i ==> hits[k].fp != fp
  {
    var init := hits[..|hits| - 1];
    if fp in FirstSeen(init) {
      i := FirstWith(init, fp);
    } else {
      i := |init|;
    }
  }

  /** The fingerprint listed first has a hit before any hit of one listed later. */
  lemma {:induction false} FirstSeenInOrder(hits: seq<Hit>, a: nat, b: nat) returns (i: nat, j: nat)
    requires a < b < |FirstSeen(hits)|
    ensures i < j < |hits| && hits[i].fp == FirstSeen(hits)[a] && hits[j].fp == FirstSeen(hits)[b]
    ensures forall k :: 0 <= k < i ==> hits[k].fp != FirstSeen(hits)[a]
    ensures forall k :: 0 <= k < j ==> hits[k].fp != FirstSeen(hits)[b]
  {
    hide FirstSeen;
    NoHitsNoFps();
    var init, last := hits[..|hits| - 1], hits[|hits| - 1];
    assert hits == init + [last];
    FirstSeenExtends(init, last);
    if b < |FirstSeen(init)| {
      i, j := FirstSeenInOrder(init, a, b);
    } else {
      j := |init|;
      i := FirstWith(init, FirstSeen(init)[a]);
    }
  }

  /** On a page sorted by time, latest first, every group lists its commands latest
      first, and the groups come in the order of their latest commands. */
  lemma GroupsKeepTimeOrder(kept: seq<Hit>)
    requires Sorted(Later, kept)
    ensures var groups := GroupsOf(kept);
            && (forall g, i, j :: 0 <= g < |groups| && 0 <= i < j < |groups[g].commands| ==>
                  groups[g].commands[i].time >= groups[g].commands[j].time)
            && (forall g :: 0 <= g < |groups| ==> groups[g].commands != [])
            && (forall a, b :: 0 <= a < b < |groups| ==> groups[a].commands[0].time >= groups[b].commands[0].time)
  {
    var groups, fps := GroupsOf(kept), FirstSeen(kept);
    forall g | 0 <= g < |groups|
      ensures groups[g].commands != []
      ensures forall i, j :: 0 <= i < j < |groups[g].commands| ==>
        groups[g].commands[i].time >= groups[g].commands[j].time
    {
      var own := Filter(HasFp(fps[g]), kept);
      FilterKeepsOrder(Later, HasFp(fps[g]), kept);
      assert forall i, j :: 0 <= i < j < |own| ==> !Later(own[j], own[i]);
      var k := FirstWith(kept, fps[g]);
      FirstOfFilter(fps[g], kept, k);
    }
    forall a, b | 0 <= a < b < |groups|
      ensures groups[a].commands[0].time >= groups[b].commands[0].time
    {
      var i, j := FirstSeenInOrder(kept, a, b);
      FirstOfFilter(fps[a], kept, i);
      FirstOfFilter(fps[b], kept, j);
      assert !Later(kept[j], kept[i]);
    }
  }

  // ---------- Groups, said of the hits ----------

  /** The hits a group is made of: those of its fingerprint that have a statement. */
  function Of(fp: string): Hit -> bool {
    (h: Hit) => h.fp == fp && h.fp != "" && h.sql != ""
  }

  predicate EventTellsOf(e: Event, h: Hit) {
    e.time == h.time && e.ip == h.ip && e.user == h.user && e.db == h.db && e.sql == h.sql
  }

  lemma {:induction false} KeptOfFp(hits: seq<Hit>, fp: string)
    ensures Filter(HasFp(fp), Filter(IsKept, hits)) == Filter(Of(fp), hits)
  {
    if hits != [] {
      var init, last := hits[..|hits| - 1], hits[|hits| - 1];
      KeptOfFp(init, fp);
      FilterConcat(HasFp(fp), Filter(IsKept, init), if IsKept(last) then [last] else []);
    }
  }

  lemma {:induction false} FirstIpIsFirst(hits: seq<Hit>)
    ensures FirstIp(hits) == "" <==> forall k :: 0 <= k < |hits| ==> hits[k].ip == ""
    ensures forall k :: 0 <= k < |hits| && hits[k].ip != "" && (forall j :: 0 <= j < k ==> hits[j].ip == "") ==>
      FirstIp(hits) == hits[k].ip
  {
    if hits != [] {
      var init := hits[..|hits| - 1];
      FirstIpIsFirst(init);
      assert forall k :: 0 <= k < |init| ==> init[k] == hits[k];
    }
  }

  /** Each group tells of the hits of its fingerprint that have a statement: its commands are
      theirs, in input order and with their own time, address, user, database and statement,
      and its address is the first one any of them has. */
  lemma GroupsTellOfHits(hits: seq<Hit>, g: nat)
    requires g < |GroupsOf(Filter(IsKept, hits))|
    ensures var group := GroupsOf(Filter(IsKept, hits))[g];
            var own := Filter(Of(group.fp), hits);
            && own != [] && |group.commands| == |own|
            && (forall k :: 0 <= k < |own| ==> EventTellsOf(group.commands[k], own[k]))
            && (group.ip == "" <==> forall k :: 0 <= k < |own| ==> own[k].ip == "")
            && (forall k :: 0 <= k < |own| && own[k].ip != "" && (forall j :: 0 <= j < k ==> own[j].ip == "") ==>
                  group.ip == own[k].ip)
  {
    var kept := Filter(IsKept, hits);
    var group := GroupsOf(kept)[g];
    KeptOfFp(hits, group.fp);
    FirstIpIsFirst(Filter(Of(group.fp), hits));
    var k := FirstWith(kept, FirstSeen(kept)[g]);
    FirstOfFilter(FirstSeen(kept)[g], kept, k);
  }

  lemma GroupFps(kept: seq<Hit>, fp: string)
    ensures (exists g :: 0 <= g < |GroupsOf(kept)| && GroupsOf(kept)[g].fp == fp) <==> fp in FirstSeen(kept)
  {
    hide FirstSeen;
    var fps, groups := FirstSeen(kept), GroupsOf(kept);
    assert forall g :: 0 <= g < |groups| ==> groups[g].fp == fps[g];
    if fp in fps {
      var g :| 0 <= g < |fps| && fps[g] == fp;
      assert groups[g].fp == fp;
    }
  }

  /** Every hit with a fingerprint and a statement has a group, and there are no others. */
  lemma EveryHitIsGrouped(hits: seq<Hit>, fp: string)
    ensures (exists g :: 0 <= g < |GroupsOf(Filter(IsKept, hits))| && GroupsOf(Filter(IsKept, hits))[g].fp == fp)
       <==> exists h :: h in hits && h.fp == fp && fp != "" && h.sql != ""
  {
    hide Filter, FirstSeen, GroupsOf;
    GroupFps(Filter(IsKept, hits), fp);
    assert fp in FirstSeen(Filter(IsKept, hits)) <==> exists h :: h in Filter(IsKept, hits) && h.fp == fp;
  }

  lemma NonemptyJoin(names: seq<string>)
    requires forall k :: 0 <= k < |names| ==> names[k] != ""
    ensures JoinWith(", ", names) == "" <==> names == []
  {
  }

  /** The user text of a group joins users of its hits, each one new to the text before it. */
  lemma {:induction false} UsersAreListedOnce(hits: seq<Hit>) returns (names: seq<string>)
    ensures UserText(hits) == JoinWith(", ", names)
    ensures forall k :: 0 <= k < |names| ==> names[k] != "" && exists h :: h in hits && h.user == names[k]
    ensures forall k :: 0 <= k < |names| ==> !Contains(JoinWith(", ", names[..k]), names[k])
  {
    if hits == [] {
      names := [];
    } else {
      var init, last := hits[..|hits| - 1], hits[|hits| - 1];
      var before := UsersAreListedOnce(init);
      assert hits == init + [last];
      JoinAppends(", ", before, last.user);
      if last.user == "" || (before != [] && Contains(UserText(init), last.user)) {
        names := before;
        NonemptyJoin(before);
      } else {
        names := before + [last.user];
        NonemptyJoin(before);
        assert forall k :: 0 <= k <= |before| ==> names[..k] == before[..k];
        assert last in hits;
      }
    }
  }
}
