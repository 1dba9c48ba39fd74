/** Inventory de-duplication (`ActiveInventory` in
    `scripts/python/ansible-commands/ansible_commands/cli.py`).

    The merged Ansible inventory is a list of items, some of them hosts. Each
    host name is normalised (reverse DNS for IP addresses, then lower-cased and
    cut to its first label) and hosts with the same normalised name are merged:
    the first one seen is kept and later ones only add variables it lacks. The
    result, a dict in insertion order, is a sequence of hosts with distinct
    names.

    `ipaddress.ip_address` (with `str(...).strip()`) and the PTR query are the
    `Resolver` oracle. `str.lower` is modelled on ASCII letters. */
module Inventory {
  import opened Wrappers
  import opened Strings

  datatype Host = Host(name: string, vars: map<string, string>)

  /** An element of the merged list: an Ansible `Host`, or anything else
      (`None`, another type), which is ignored. */
  datatype Item = HostItem(host: Host) | Other

  datatype PtrAnswer = Resolved(name: string) | NxDomain | LookupFailure(msg: string)

  /** `canonicalIp(s)` is `str(ipaddress.ip_address(s)).strip()`, or `None`
      when it raises ValueError; `ptr(ip)` is the PTR query of the reverse name. */
  datatype Resolver = Resolver(canonicalIp: string -> Option<string>, ptr: string -> PtrAnswer)

  /** `s.split(".")[0]` */
  function FirstLabel(s: string): (r: string)
    ensures StartsWith(s, r)
    ensures !Contains(r, ".")
    ensures r == s || OccursAt(s, ".", |r|)
  {
    var parts := SplitOn(s, ".");
    if |parts| == 1 then parts[0]
    else
      assert s == parts[0] + "." + JoinWith(parts[1..], ".");
      assert s[..|parts[0]|] == parts[0];
      assert s[|parts[0]|..|parts[0]| + 1] == ".";
      parts[0]
  }

  predicate NoUpper(s: string) {
    forall i :: 0 <= i < |s| ==> !('A' <= s[i] <= 'Z')
  }

  /** The common tail of `_normalize_hostname`: wildcard names are dropped,
      others are lower-cased and cut to their first label. */
  function Simplify(hostname: string): (r: Option<string>)
    ensures r.None? <==> StartsWith(hostname, "*")
    ensures r.Some? ==> !Contains(r.value, ".") && NoUpper(r.value)
    ensures r.Some? ==> StartsWith(AsciiLower(hostname), r.value)
  {
    if StartsWith(hostname, "*") then None
    else
      var lowered := AsciiLower(hostname);
      var first := FirstLabel(lowered);
      assert forall i :: 0 <= i < |first| ==> first[i] == lowered[i];
      Some(first)
  }

  /** `_normalize_hostname`: `Ok(None)` stands for a returned `None`; a DNS
      failure other than NXDOMAIN escapes as an error. */
  function Normalize(res: Resolver, hostname: string): (r: Result<Option<string>>)
    ensures r.Err? <==> res.canonicalIp(hostname).Some? && res.ptr(res.canonicalIp(hostname).value).LookupFailure?
    ensures res.canonicalIp(hostname).None? ==> r == Ok(Simplify(hostname))
    ensures res.canonicalIp(hostname).Some? && res.ptr(res.canonicalIp(hostname).value).NxDomain? ==>
      r == Ok(Some(res.canonicalIp(hostname).value))
    ensures res.canonicalIp(hostname).Some? && res.ptr(res.canonicalIp(hostname).value).Resolved? ==>
      r.Ok? && (r.value.Some? ==> !Contains(r.value.value, ".") && NoUpper(r.value.value))
    ensures res.canonicalIp(hostname).Some? && res.ptr(res.canonicalIp(hostname).value).Resolved? ==>
      var name := res.ptr(res.canonicalIp(hostname).value).name;
      && (EndsWith(name, ".") ==> r == Ok(Simplify(name[..|name| - 1])))
      && (!EndsWith(name, ".") ==> r == Ok(Simplify(hostname)))
  {
    match res.canonicalIp(hostname)
    case None => Ok(Simplify(hostname))
    case Some(ip) =>
      match res.ptr(ip)
      case NxDomain => Ok(Some(ip))
      case LookupFailure(msg) => Err(LibraryError(msg))
      case Resolved(name) =>
        Ok(Simplify(if EndsWith(name, ".") then name[..|name| - 1] else hostname))
  }

  lemma AsciiLowerIdempotent(s: string)
    requires NoUpper(s)
    ensures AsciiLower(s) == s
  {
  }

  /** A name that is already normalised, and is not itself an IP address,
      normalises to itself. */
  lemma NormalizeIdempotent(res: Resolver, hostname: string)
    requires res.canonicalIp(hostname).None?
    requires Normalize(res, hostname).Ok? && Normalize(res, hostname).value.Some?
    requires res.canonicalIp(Normalize(res, hostname).value.value).None?
    ensures Normalize(res, Normalize(res, hostname).value.value) == Normalize(res, hostname)
  {
    var n := Normalize(res, hostname).value.value;
    AsciiLowerIdempotent(n);
  }

  /** `m` extended with the keys of `extra` it lacks; existing keys keep their
      values. */
  function MergeVars(m: map<string, string>, extra: map<string, string>): (r: map<string, string>)
    ensures r.Keys == m.Keys + extra.Keys
    ensures forall k :: k in m ==> r[k] == m[k]
    ensures forall k :: k in extra && k !in m ==> r[k] == extra[k]
  {
    map k | k in m.Keys + extra.Keys :: if k in m then m[k] else extra[k]
  }

  /** Index of the host named `n`, or -1. */
  function Find(hs: seq<Host>, n: string): (r: int)
    ensures -1 <= r < |hs|
    ensures r >= 0 ==> hs[r].name == n
    ensures r == -1 <==> forall i :: 0 <= i < |hs| ==> hs[i].name != n
    ensures r >= 0 ==> forall i :: 0 <= i < r ==> hs[i].name != n
  {
    if |hs| == 0 then -1
    else if hs[0].name == n then 0
    else
      var i := Find(hs[1..], n);
      if i < 0 then -1 else i + 1
  }

  /** Storing a host under its (normalised) name: a new name is appended, a
      known one gains the variables it lacks. */
  function Insert(acc: seq<Host>, h: Host): (r: seq<Host>)
    ensures Find(acc, h.name) < 0 ==> r == acc + [h]
    ensures Find(acc, h.name) >= 0 ==>
      |r| == |acc| && r[Find(acc, h.name)] == Host(h.name, MergeVars(acc[Find(acc, h.name)].vars, h.vars))
    ensures Find(acc, h.name) >= 0 ==> forall i :: 0 <= i < |acc| && i != Find(acc, h.name) ==> r[i] == acc[i]
  {
    var i := Find(acc, h.name);
    if i < 0 then acc + [h] else acc[i := acc[i].(vars := MergeVars(acc[i].vars, h.vars))]
  }

  /** `_filter_duplicates(filtered_inventory, item)`. */
  function FilterDuplicates(res: Resolver, acc: seq<Host>, item: Item): (r: Result<seq<Host>>)
    ensures item.Other? ==> r == Ok(acc)
    ensures item.HostItem? ==> (r.Err? <==> Normalize(res, item.host.name).Err?)
    ensures item.HostItem? && Normalize(res, item.host.name) == Ok(None) ==> r == Ok(acc)
    ensures r.Ok? ==> |acc| <= |r.value| <= |acc| + 1
    ensures r.Ok? && UniqueNames(acc) ==> UniqueNames(r.value)
  {
    match item
    case Other => Ok(acc)
    case HostItem(h) =>
      var n :- Normalize(res, h.name);
      match n
      case None => Ok(acc)
      case Some(name) =>
        if UniqueNames(acc) then InsertUnique(acc, Host(name, h.vars)); Ok(Insert(acc, Host(name, h.vars)))
        else Ok(Insert(acc, Host(name, h.vars)))
  }

  /** `_preprocess_inventory(inventory)`: the loop over the items in order. */
  function Preprocess(res: Resolver, items: seq<Item>): (r: Result<seq<Host>>)
    ensures |items| == 0 ==> r == Ok([])
    ensures r.Ok? ==> UniqueNames(r.value) && |r.value| <= |items|
    ensures (exists i :: 0 <= i < |items| && items[i].HostItem? && Normalize(res, items[i].host.name).Err?) ==> r.Err?
    decreases |items|
  {
    if |items| == 0 then Ok([])
    else
      var acc :- Preprocess(res, items[..|items| - 1]);
      FilterDuplicates(res, acc, items[|items| - 1])
  }

  // ---------------------------------------------------------------------------
  // Reference definitions
  // ---------------------------------------------------------------------------

  /** The accepted hosts, renamed to their normalised names, in input order. */
  function Accepted(res: Resolver, items: seq<Item>): Result<seq<Host>>
    decreases |items|
  {
    if |items| == 0 then Ok([])
    else
      var init :- Accepted(res, items[..|items| - 1]);
      match items[|items| - 1]
      case Other => Ok(init)
      case HostItem(h) =>
        var n :- Normalize(res, h.name);
        if n.Some? then Ok(init + [Host(n.value, h.vars)]) else Ok(init)
  }

  /** The accepted hosts merged one after the other. */
  function Dedup(hs: seq<Host>): seq<Host>
    decreases |hs|
  {
    if |hs| == 0 then [] else Insert(Dedup(hs[..|hs| - 1]), hs[|hs| - 1])
  }

  /** The first host named `n` that has variable `k`, or -1. */
  function FirstWith(hs: seq<Host>, n: string, k: string): (r: int)
    ensures -1 <= r < |hs|
    ensures r >= 0 ==> hs[r].name == n && k in hs[r].vars
    ensures r >= 0 ==> forall j :: 0 <= j < r ==> !(hs[j].name == n && k in hs[j].vars)
    ensures r == -1 ==> forall j :: 0 <= j < |hs| ==> !(hs[j].name == n && k in hs[j].vars)
    decreases |hs|
  {
    if |hs| == 0 then -1
    else
      var f := FirstWith(hs[..|hs| - 1], n, k);
      if f >= 0 then f
      else if hs[|hs| - 1].name == n && k in hs[|hs| - 1].vars then |hs| - 1
      else -1
  }

  predicate UniqueNames(hs: seq<Host>) {
    forall i, j :: 0 <= i < j < |hs| ==> hs[i].name != hs[j].name
  }

  function Names(hs: seq<Host>): set<string> {
    set i | 0 <= i < |hs| :: hs[i].name
  }

  /** Every name of `r` is the name of some host of `hs` and vice versa. */
  ghost predicate SameNames(hs: seq<Host>, r: seq<Host>) {
    Names(hs) == Names(r)
  }

  /** For every host of `r`, each variable comes from the first host of `hs`
      with that name that has it, and it has every such variable. */
  ghost predicate VarsFirstWin(hs: seq<Host>, r: seq<Host>) {
    && (forall i, k :: 0 <= i < |r| ==> (k in r[i].vars <==> FirstWith(hs, r[i].name, k) >= 0))
    && (forall i, k :: 0 <= i < |r| && k in r[i].vars ==> r[i].vars[k] == hs[FirstWith(hs, r[i].name, k)].vars[k])
  }

  /** The de-duplicated hosts as the source promises: distinct names, exactly
      the accepted names, and first-wins variables. */
  ghost predicate FirstWins(hs: seq<Host>, r: seq<Host>) {
    UniqueNames(r) && SameNames(hs, r) && VarsFirstWin(hs, r)
  }

  // ---------------------------------------------------------------------------
  // Properties
  // ---------------------------------------------------------------------------

  /** The loop is: accept, then merge. Any DNS failure fails the whole run. */
  lemma {:induction false} PreprocessIsDedupOfAccepted(res: Resolver, items: seq<Item>)
    ensures Preprocess(res, items).Ok? <==> Accepted(res, items).Ok?
    ensures Preprocess(res, items).Ok? ==> Preprocess(res, items).value == Dedup(Accepted(res, items).value)
    decreases |items|
  {
    if |items| > 0 {
      PreprocessIsDedupOfAccepted(res, items[..|items| - 1]);
      var init := Accepted(res, items[..|items| - 1]);
      if init.Ok? {
        var hs := init.value;
        match items[|items| - 1]
        case Other =>
        case HostItem(h) =>
          var n := Normalize(res, h.name);
          if n.Ok? && n.value.Some? {
            var full := hs + [Host(n.value.value, h.vars)];
            assert full[..|full| - 1] == hs;
          }
      }
    }
  }

  lemma InsertUnique(acc: seq<Host>, h: Host)
    requires UniqueNames(acc)
    ensures UniqueNames(Insert(acc, h))
  {
  }

  lemma NamesSnoc(hs: seq<Host>, h: Host)
    ensures Names(hs + [h]) == Names(hs) + {h.name}
  {
    var all := hs + [h];
    assert forall i :: 0 <= i < |hs| ==> all[i] == hs[i];
    assert all[|hs|] == h;
  }

  lemma InsertSameNames(init: seq<Host>, acc: seq<Host>, h: Host)
    requires SameNames(init, acc)
    ensures SameNames(init + [h], Insert(acc, h))
  {
    NamesSnoc(init, h);
    var r := Insert(acc, h);
    var f := Find(acc, h.name);
    if f < 0 {
      NamesSnoc(acc, h);
    } else {
      assert forall i :: 0 <= i < |acc| ==> r[i].name == acc[i].name;
      assert Names(r) == Names(acc);
    }
  }

  lemma FirstWithSnoc(init: seq<Host>, h: Host, n: string, k: string)
    ensures FirstWith(init + [h], n, k) ==
      (if FirstWith(init, n, k) >= 0 then FirstWith(init, n, k)
       else if h.name == n && k in h.vars then |init| else -1)
  {
    assert (init + [h])[..|init|] == init;
  }

  lemma InsertVars(init: seq<Host>, acc: seq<Host>, h: Host)
    requires UniqueNames(acc) && SameNames(init, acc) && VarsFirstWin(init, acc)
    ensures VarsFirstWin(init + [h], Insert(acc, h))
  {
    var hs := init + [h];
    var r := Insert(acc, h);
    var f := Find(acc, h.name);
    assert hs[|init|] == h;
    forall i, k | 0 <= i < |r|
      ensures k in r[i].vars <==> FirstWith(hs, r[i].name, k) >= 0
      ensures k in r[i].vars ==> r[i].vars[k] == hs[FirstWith(hs, r[i].name, k)].vars[k]
    {
      var n := r[i].name;
      var fi := FirstWith(init, n, k);
      FirstWithSnoc(init, h, n, k);
      if fi >= 0 {
        assert hs[fi] == init[fi];
      }
      if fi >= 0 {
        assert init[fi].name in Names(init);
        assert n in Names(acc);
      }
      if f < 0 && i == |acc| {
        assert r[i] == h;
      } else if f >= 0 && i == f {
        assert k in acc[f].vars <==> fi >= 0;
      } else {
        assert r[i] == acc[i] && acc[i].name != h.name;
        assert k in acc[i].vars <==> fi >= 0;
      }
    }
  }

  /** Merging keeps names distinct and keeps exactly the accepted names. */
  lemma {:induction false} DedupNames(hs: seq<Host>)
    ensures UniqueNames(Dedup(hs)) && SameNames(hs, Dedup(hs))
    decreases |hs|
  {
    if |hs| > 0 {
      var init := hs[..|hs| - 1];
      var h := hs[|hs| - 1];
      DedupNames(init);
      InsertUnique(Dedup(init), h);
      InsertSameNames(init, Dedup(init), h);
      assert hs == init + [h];
    }
  }

  /** Merging gives every host the first-wins variables. */
  lemma {:induction false} DedupVars(hs: seq<Host>)
    ensures VarsFirstWin(hs, Dedup(hs))
    decreases |hs|
  {
    if |hs| > 0 {
      var init := hs[..|hs| - 1];
      var h := hs[|hs| - 1];
      DedupNames(init);
      DedupVars(init);
      InsertVars(init, Dedup(init), h);
      assert hs == init + [h];
    }
  }

  /** End to end: a successful run yields distinct names, exactly the accepted
      normalised names, and first-wins variables. */
  lemma PreprocessFirstWins(res: Resolver, items: seq<Item>)
    requires Preprocess(res, items).Ok?
    ensures Accepted(res, items).Ok?
    ensures FirstWins(Accepted(res, items).value, Preprocess(res, items).value)
  {
    PreprocessIsDedupOfAccepted(res, items);
    DedupNames(Accepted(res, items).value);
    DedupVars(Accepted(res, items).value);
  }

  // ---------------------------------------------------------------------------
  // Merge order of the sources
  // ---------------------------------------------------------------------------

  /** `KitchenSinkInventory.merged_inventory`: proxmox, then ldap, then statics. */
  function MergedInventory(proxmox: seq<Item>, ldap: seq<Item>, statics: seq<Item>): (r: seq<Item>)
    ensures |r| == |proxmox| + |ldap| + |statics|
    ensures r[..|proxmox|] == proxmox
    ensures r[|proxmox|..|proxmox| + |ldap|] == ldap
    ensures r[|proxmox| + |ldap|..] == statics
  {
    proxmox + ldap + statics
  }

  lemma {:induction false} AcceptedAppend(res: Resolver, a: seq<Item>, b: seq<Item>)
    requires Accepted(res, a + b).Ok?
    ensures Accepted(res, a).Ok?
    ensures StartsWith(Accepted(res, a + b).value, Accepted(res, a).value)
    decreases |b|
  {
    if |b| == 0 {
      assert a + b == a;
    } else {
      var ab := a + b;
      assert ab[..|ab| - 1] == a + b[..|b| - 1];
      AcceptedAppend(res, a, b[..|b| - 1]);
    }
  }

  /** A match in a prefix is the first match in the whole sequence. */
  lemma {:induction false} FirstWithPrefix(pre: seq<Host>, all: seq<Host>, n: string, k: string)
    requires StartsWith(all, pre) && FirstWith(pre, n, k) >= 0
    ensures FirstWith(all, n, k) == FirstWith(pre, n, k)
  {
    var fp := FirstWith(pre, n, k);
    assert all[fp] == pre[fp];
    forall j | 0 <= j < fp
      ensures !(all[j].name == n && k in all[j].vars)
    {
      assert all[j] == pre[j];
    }
  }

  /** Proxmox variables win: when an accepted proxmox host of name `n` has
      variable `k`, the merged host `n` takes `k` from the first such proxmox
      host. */
  lemma ProxmoxVarsWin(res: Resolver, proxmox: seq<Item>, ldap: seq<Item>, statics: seq<Item>, n: string, k: string)
    requires Preprocess(res, MergedInventory(proxmox, ldap, statics)).Ok?
    ensures Accepted(res, proxmox).Ok?
    ensures var pro := Accepted(res, proxmox).value;
            var r := Preprocess(res, MergedInventory(proxmox, ldap, statics)).value;
            FirstWith(pro, n, k) >= 0 ==>
              exists i :: 0 <= i < |r| && r[i].name == n && k in r[i].vars && r[i].vars[k] == pro[FirstWith(pro, n, k)].vars[k]
  {
    var merged := MergedInventory(proxmox, ldap, statics);
    PreprocessIsDedupOfAccepted(res, merged);
    assert merged == proxmox + (ldap + statics);
    AcceptedAppend(res, proxmox, ldap + statics);
    var pro := Accepted(res, proxmox).value;
    var all := Accepted(res, merged).value;
    var r := Preprocess(res, merged).value;
    if FirstWith(pro, n, k) >= 0 {
      FirstWithPrefix(pro, all, n, k);
      var fp := FirstWith(pro, n, k);
      DedupNames(all);
      DedupVars(all);
      assert all[fp].name in Names(all);
      var i :| 0 <= i < |r| && r[i].name == n;
      assert k in r[i].vars;
    }
  }
}
