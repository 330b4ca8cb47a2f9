/** The string rules of the runtime: generated actor names, cluster member
    ids, and the address prefix that picks the member owning an address. All
    addresses have the form `host/identifier`. */
module Names {
  import opened Wrappers
  import opened Modes

  /** Java's `s.startsWith(p)`. */
  predicate StartsWith(s: string, p: string)
  {
    |p| <= |s| && s[..|p|] == p
  }

  /** The characters of `s` before its first '/', or all of `s` if it has none. */
  function BeforeSlash(s: string): (r: string)
    ensures '/' !in r
    ensures StartsWith(s, r)
    ensures |r| == |s| || s[|r|] == '/'
  {
    if s == [] || s[0] == '/' then [] else [s[0]] + BeforeSlash(s[1..])
  }

  /** Whether `s` is made of '/' characters only. */
  predicate OnlySlashes(s: string)
  {
    forall i :: 0 <= i < |s| ==> s[i] == '/'
  }

  /** Java's `s.split("/")[0]`. `split` drops trailing empty strings, so a
      non-empty string made of slashes only splits into an empty array and
      indexing it throws `ArrayIndexOutOfBoundsException` (`None` here); an
      empty string splits into `[""]`. */
  function FirstSegment(s: string): (r: Option<string>)
    ensures r.None? <==> s != [] && OnlySlashes(s)
    ensures r.Some? ==> && '/' !in r.value
                        && StartsWith(s, r.value)
                        && (|r.value| == |s| || s[|r.value|] == '/')
  {
    if s != [] && OnlySlashes(s) then None else Some(BeforeSlash(s))
  }

  /** `uuid.replaceAll("-", "")`. */
  function RemoveDashes(s: string): (r: string)
    ensures '-' !in r
    ensures multiset(r) == multiset(s)['-' := 0]
    ensures '-' !in s ==> r == s
  {
    if s == [] then []
    else
      assert s == [s[0]] + s[1..];
      if s[0] == '-' then RemoveDashes(s[1..])
      else [s[0]] + RemoveDashes(s[1..])
  }

  /** Removing the dashes works piece by piece: together with the clauses
      of `RemoveDashes`, the characters other than '-' keep their order. */
  lemma {:induction false} RemoveDashesAppend(a: string, b: string)
    ensures RemoveDashes(a + b) == RemoveDashes(a) + RemoveDashes(b)
    decreases |a|
  {
    if a == [] {
      assert a + b == b;
    } else {
      assert (a + b)[0] == a[0];
      assert (a + b)[1..] == a[1..] + b;
      RemoveDashesAppend(a[1..], b);
    }
  }

  /** The id of the seed member of a cluster whose seed host is `seedHost`,
      also the name under which joining members look the seed up. */
  function MasterId(seedHost: string): string
  {
    seedHost + "/master"
  }

  /** The member id a cluster node computes for itself from its host, the seed
      host and the text of a fresh random UUID. */
  function NodeId(host: string, seedHost: string, uuidText: string): (id: string)
    ensures StartsWith(id, host + "/")
    ensures host == seedHost ==> id == MasterId(seedHost)
    ensures host != seedHost ==> '-' !in id[|host| + 1..]
  {
    if host != seedHost then host + "/" + RemoveDashes(uuidText) else MasterId(host)
  }

  /** The host `actorOf(actor, mode)` falls back on when the local address
      cannot be resolved. */
  const LoopbackHost := "127.0.0.1"

  /** The name `actorOf(actor, mode)` generates: the UUID text alone for a
      local actor, `host/uuid` for a remote one. */
  function GeneratedName(mode: ActorMode, localHost: Option<string>, uuidText: string): string
  {
    if mode == REMOTE then
      (if localHost.Some? then localHost.value else LoopbackHost) + "/" + uuidText
    else uuidText
  }

  /** The address prefix of a `host/...` string is its host. */
  lemma PrefixOfHostAddress(host: string, rest: string)
    requires host != [] && '/' !in host
    ensures FirstSegment(host + "/" + rest) == Some(host)
  {
    var s := host + "/" + rest;
    assert s[|host|] == '/';
    assert s[0] == host[0] && s[0] != '/';
    var r := BeforeSlash(s);
    assert s[..|r|] == r;
    assert r == s[..|host|] == host;
  }

  /** Every member id routes to the member's own host: the owner of an
      address `h/...` is picked among the members whose id starts with `h`. */
  lemma NodeIdPrefix(host: string, seedHost: string, uuidText: string)
    requires host != [] && '/' !in host
    ensures FirstSegment(NodeId(host, seedHost, uuidText)) == Some(host)
    ensures StartsWith(NodeId(host, seedHost, uuidText), host)
  {
    if host != seedHost {
      PrefixOfHostAddress(host, RemoveDashes(uuidText));
    } else {
      PrefixOfHostAddress(host, "master");
    }
  }

  /** A remote name generated on a host is owned by that host, and a name
      generated for a local actor is the bare UUID text. */
  lemma GeneratedNamePrefix(mode: ActorMode, localHost: Option<string>, uuidText: string)
    requires localHost.Some? ==> localHost.value != [] && '/' !in localHost.value
    ensures mode == REMOTE ==> FirstSegment(GeneratedName(mode, localHost, uuidText))
                               == Some(if localHost.Some? then localHost.value else LoopbackHost)
    ensures mode == LOCAL ==> GeneratedName(mode, localHost, uuidText) == uuidText
  {
    if mode == REMOTE {
      var host := if localHost.Some? then localHost.value else LoopbackHost;
      PrefixOfHostAddress(host, uuidText);
    }
  }

  /** The owner test of `ClusterImpl` as written: the member id starts with
      the address prefix `addr`. */
  predicate PrefixOwner(memberId: string, addr: string)
  {
    StartsWith(memberId, addr)
  }

  /** The as-written owner test accepts a member on another host whose address
      merely extends the destination's host. */
  lemma PrefixOwnerCrossesHosts()
    ensures PrefixOwner("10.0.0.12/master", "10.0.0.1")
    ensures FirstSegment("10.0.0.12/master") == Some("10.0.0.12")
  {
    var member := "10.0.0.12/master";
    assert member[..8] == "10.0.0.1";
    assert member == "10.0.0.12" + "/" + "master";
    PrefixOfHostAddress("10.0.0.12", "master");
  }

  /** The owner test as intended: the member id is an address on host `addr`. */
  predicate HostOwner(memberId: string, addr: string)
  {
    StartsWith(memberId, addr + "/")
  }

  /** A member passing the intended test lives on exactly the destination's
      host, and every member id passes it for its own host. */
  lemma HostOwnerExact(memberId: string, addr: string)
    requires addr != [] && '/' !in addr
    ensures HostOwner(memberId, addr) ==> FirstSegment(memberId) == Some(addr)
    ensures forall seedHost, uuidText :: HostOwner(NodeId(addr, seedHost, uuidText), addr)
  {
    if HostOwner(memberId, addr) {
      var rest := memberId[|addr| + 1..];
      assert memberId == addr + "/" + rest;
      PrefixOfHostAddress(addr, rest);
    }
  }
}
