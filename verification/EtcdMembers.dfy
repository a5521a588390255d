/** Etcd members, and which of them may be removed (pkg/operator/heal/triple.go, pkg/actions/etcd/etcd.go). */
module EtcdMembers {
  import opened Basics
  import opened Strings
  import opened Triples

  /** Id 0 stands for a missing id; `ip` is derived from the first peer URL. */
  datatype Member = Member(id: nat, ip: string, peerUrls: seq<string>)

  predicate DistinctIds(mems: seq<Member>) {
    forall i, j :: 0 <= i < j < |mems| ==> mems[i].id != mems[j].id
  }

  predicate Backed(m: Member, instances: seq<Instance>) {
    exists i :: i in instances && i.ip == m.ip
  }

  /** Members whose machine is gone, in order. */
  function Stale(mems: seq<Member>, instances: seq<Instance>): (r: seq<Member>)
    ensures forall m :: m in r <==> m in mems && !Backed(m, instances)
  {
    if mems == [] then []
    else if Backed(mems[0], instances) then Stale(mems[1..], instances)
    else [mems[0]] + Stale(mems[1..], instances)
  }

  /** Members that still have a machine, in order. */
  function Live(mems: seq<Member>, instances: seq<Instance>): (r: seq<Member>)
    ensures forall m :: m in r <==> m in mems && Backed(m, instances)
    ensures |r| + |Stale(mems, instances)| == |mems|
  {
    if mems == [] then []
    else if Backed(mems[0], instances) then [mems[0]] + Live(mems[1..], instances)
    else Live(mems[1..], instances)
  }

  method HasMachine(m: Member, instances: seq<Instance>) returns (found: bool)
    ensures found <==> Backed(m, instances)
  {
    for j := 0 to |instances|
      invariant forall i :: i in instances[..j] ==> i.ip != m.ip
    {
      if m.ip == instances[j].ip {
        return true;
      }
      assert instances[..j + 1] == instances[..j] + [instances[j]];
    }
    return false;
  }

  method EtcdMemDiff(instances: seq<Instance>, mems: seq<Member>) returns (deletions: seq<Member>)
    ensures forall m :: m in deletions ==> m in mems && !Backed(m, instances)
    ensures 2 * |deletions| <= |mems|
    ensures deletions == if 2 * |Stale(mems, instances)| > |mems| then [] else Stale(mems, instances)
  {
    deletions := [];
    for k := 0 to |mems|
      invariant deletions + Stale(mems[k..], instances) == Stale(mems, instances)
    {
      var m := mems[k];
      var found := HasMachine(m, instances);
      assert mems[k..][1..] == mems[k + 1..];
      if !found {
        deletions := deletions + [m];
      }
    }
    assert Stale(mems[|mems|..], instances) == [];
    if 2 * |deletions| > |mems| {
      return [];
    }
  }

  /** `etcdctl member remove` by id. */
  function Without(mems: seq<Member>, id: nat): (r: seq<Member>)
    ensures forall m :: m in r <==> m in mems && m.id != id
  {
    Filter(mems, (m: Member) => m.id != id)
  }

  function RemoveAll(mems: seq<Member>, dels: seq<Member>): seq<Member>
    decreases dels
  {
    if dels == [] then mems else RemoveAll(Without(mems, dels[0].id), dels[1..])
  }

  lemma WithoutAbsent(mems: seq<Member>, id: nat)
    requires forall m :: m in mems ==> m.id != id
    ensures Without(mems, id) == mems
  {
    FilterAll(mems, (m: Member) => m.id != id);
  }

  lemma WithoutDistinct(mems: seq<Member>, id: nat)
    requires DistinctIds(mems)
    ensures DistinctIds(Without(mems, id))
  {
    FilterPairwise(mems, (m: Member) => m.id != id, (a: Member, b: Member) => a.id != b.id);
  }

  /** Removing the first stale member touches nobody else. */
  lemma {:induction false} WithoutFirstStale(mems: seq<Member>, instances: seq<Instance>)
    requires DistinctIds(mems) && Stale(mems, instances) != []
    ensures var stale := Stale(mems, instances);
            var rest := Without(mems, stale[0].id);
            && Stale(rest, instances) == stale[1..]
            && Live(rest, instances) == Live(mems, instances)
  {
    var stale := Stale(mems, instances);
    if Backed(mems[0], instances) {
      WithoutFirstStale(mems[1..], instances);
      assert stale[0] in mems[1..];
    } else {
      forall m | m in mems[1..]
        ensures m.id != mems[0].id
      {
      }
      WithoutAbsent(mems[1..], mems[0].id);
    }
  }

  /**
   After any prefix of the removal loop the members with a machine are exactly the
   ones there were, and they are a strict majority of what remains if and only if
   fewer than half of the original members were stale, or exactly half were and
   one has already gone.
   */
  lemma {:induction false} RemovalPrefix(mems: seq<Member>, instances: seq<Instance>, k: nat)
    requires DistinctIds(mems)
    requires k <= |Stale(mems, instances)|
    ensures var rest := RemoveAll(mems, Stale(mems, instances)[..k]);
            && |rest| == |mems| - k
            && Live(rest, instances) == Live(mems, instances)
            && (2 * |Live(rest, instances)| > |rest| <==> 2 * |Stale(mems, instances)| < |mems| + k)
    decreases k
  {
    var stale := Stale(mems, instances);
    if k == 0 {
      assert stale[..0] == [];
    } else {
      var rest := Without(mems, stale[0].id);
      WithoutFirstStale(mems, instances);
      WithoutDistinct(mems, stale[0].id);
      RemovalPrefix(rest, instances, k - 1);
      assert stale[..k][1..] == stale[1..][..k - 1];
    }
  }

  lemma NotHalf(stale: nat, all: nat, k: nat)
    requires 2 * stale <= all && (0 < k || all % 2 == 1)
    ensures 2 * stale < all + k
  {
  }

  /**
   Whatever the guard lets through, every step after the first removal has a live
   strict majority; with an odd number of members so has the start.
   */
  lemma GuardedRemovalKeepsMajority(mems: seq<Member>, instances: seq<Instance>, k: nat)
    requires DistinctIds(mems)
    requires k <= |Stale(mems, instances)| && 2 * |Stale(mems, instances)| <= |mems|
    requires 0 < k || |mems| % 2 == 1
    ensures var rest := RemoveAll(mems, Stale(mems, instances)[..k]);
            2 * |Live(rest, instances)| > |rest|
  {
    NotHalf(|Stale(mems, instances)|, |mems|, k);
    RemovalPrefix(mems, instances, k);
  }

  // ----- Addresses ------------------------------------------------------------

  function Advertise(ip: string, port: string): string {
    "https://" + ip + ":" + port
  }

  lemma AdvertiseInjective(a: string, b: string, port: string)
    requires Advertise(a, port) == Advertise(b, port)
    ensures a == b
  {
    assert Advertise(a, port)[8..8 + |a|] == a;
    assert Advertise(b, port)[8..8 + |b|] == b;
  }

  /** The address part of the first peer URL. */
  function ParseIp(url: string): Result<string> {
    var ips := Split(url, "//");
    if |ips| < 2 then Err("unknown Advertise addr format")
    else
      var addr := Split(ips[1], ":");
      if |addr| < 2 then Err("unknown addr format") else Ok(addr[0])
  }

  lemma FirstPiece(s: string, sep: string)
    requires sep != ""
    ensures Split(s, sep)[0] <= s
    ensures !Contains(Split(s, sep)[0], sep)
  {
    var i := IndexOf(s, sep);
    if 0 <= i {
      forall j | 0 <= j <= i
        ensures !OccursAt(s[..i], sep, j)
      {
        if j <= i - |sep| {
          assert s[..i][j..j + |sep|] == s[j..j + |sep|];
          assert !OccursAt(s, sep, j);
        }
      }
    }
  }

  lemma PrefixContains(a: string, s: string, sub: string)
    requires a <= s && Contains(a, sub)
    ensures Contains(s, sub)
  {
    var i :| 0 <= i <= |a| && OccursAt(a, sub, i);
    assert a[i..i + |sub|] == s[i..i + |sub|];
    assert OccursAt(s, sub, i);
  }

  lemma AdvertisePieces(ip: string)
    ensures Split(Advertise(ip, "2380"), "//") == ["https:"] + Split(ip + ":2380", "//")
  {
    var url := Advertise(ip, "2380");
    var rest := ip + ":2380";
    assert url == "https:" + "//" + rest;
    forall j | 0 <= j < 6
      ensures !OccursAt(url, "//", j)
    {
      assert url[j..j + 2][0] == "https:"[j];
    }
    SplitAt("https:", "//", rest);
  }

  lemma NoSlashesBehind(ip: string)
    requires !Contains(ip, "//")
    ensures !Contains(ip + ":2380", "//")
  {
    var tail := ":2380";
    var s := ip + tail;
    assert '/' !in tail;
    forall j | 0 <= j <= |s|
      ensures !OccursAt(s, "//", j)
    {
      if j + 2 <= |ip| {
        assert s[j..j + 2] == ip[j..j + 2];
        assert !OccursAt(ip, "//", j);
      } else if j + 2 <= |s| {
        assert s[j..j + 2][1] == tail[j + 1 - |ip|] && tail[j + 1 - |ip|] in tail;
      }
    }
  }

  /** A member's address comes back from the URL it advertised exactly when it holds no ':' and no "//". */
  lemma AdvertiseRoundTrip(ip: string)
    ensures ParseIp(Advertise(ip, "2380")) == Ok(ip) <==> ':' !in ip && !Contains(ip, "//")
  {
    var rest := ip + ":2380";
    AdvertisePieces(ip);
    var host := Split(rest, "//")[0];
    assert Split(Advertise(ip, "2380"), "//")[1] == host;
    if ':' !in ip && !Contains(ip, "//") {
      NoSlashesBehind(ip);
      assert host == rest;
      assert rest == ip + [':'] + "2380";
      SplitAtChar(ip, ':', "2380");
    }
    if ParseIp(Advertise(ip, "2380")) == Ok(ip) {
      SplitPieces(host, ':');
      assert ip == Split(host, ":")[0];
      FirstPiece(host, ":");
      FirstPiece(rest, "//");
      if Contains(ip, "//") {
        PrefixContains(ip, host, "//");
      }
    }
  }

  /** The member that advertises `ip`, or the zero member. */
  method FindMemberByIP(mems: seq<Member>, ip: string) returns (r: Member)
    ensures || (r in mems && r.peerUrls != [] && r.peerUrls[0] == Advertise(ip, "2380"))
            || (r.id == 0 && forall m :: m in mems && m.peerUrls != [] ==> m.peerUrls[0] != Advertise(ip, "2380"))
  {
    for k := 0 to |mems|
      invariant forall m :: m in mems[..k] && m.peerUrls != [] ==> m.peerUrls[0] != Advertise(ip, "2380")
    {
      var mem := mems[k];
      assert mems[..k + 1] == mems[..k] + [mem];
      if |mem.peerUrls| == 0 {
        continue;
      }
      var adv := Advertise(ip, "2380");
      if mem.peerUrls[0] == adv {
        return mem;
      }
    }
    assert mems[..|mems|] == mems;
    return Member(0, "", []);
  }

  /** Fill in every member's address, or give up on the first URL that does not parse. */
  method FillAddresses(mems: seq<Member>) returns (r: Result<seq<Member>>)
    ensures r.Ok? <==> forall m :: m in mems ==> m.peerUrls != [] && ParseIp(m.peerUrls[0]).Ok?
    ensures r.Ok? ==> |r.value| == |mems| && forall k :: 0 <= k < |mems| ==>
                        mems[k].peerUrls != [] && r.value[k] == mems[k].(ip := ParseIp(mems[k].peerUrls[0]).value)
  {
    var filled := [];
    for k := 0 to |mems|
      invariant |filled| == k
      invariant forall m :: m in mems[..k] ==> m.peerUrls != [] && ParseIp(m.peerUrls[0]).Ok?
      invariant forall j :: 0 <= j < k ==>
                  mems[j].peerUrls != [] && ParseIp(mems[j].peerUrls[0]).Ok? &&
                  filled[j] == mems[j].(ip := ParseIp(mems[j].peerUrls[0]).value)
    {
      var p := mems[k];
      assert p in mems && mems[..k + 1] == mems[..k] + [p];
      if |p.peerUrls| < 1 {
        return Err("empty peer url");
      }
      var addr := ParseIp(p.peerUrls[0]);
      if addr.Err? {
        return Err(addr.error);
      }
      filled := filled + [p.(ip := addr.value)];
    }
    assert mems[..|mems|] == mems;
    return Ok(filled);
  }
}
