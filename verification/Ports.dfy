/**
  Compressing published ports into ranges for display (api/common.go). The entries are kept
  structured: `Range` is what formGroup prints, `Host` a host mapping.
*/
module Ports {
  import opened Wrappers

  /** types.Port. */
  datatype Port = Port(ip: string, privatePort: nat, publicPort: nat, kind: string)

  datatype Entry = Range(ip: string, first: nat, last: nat, kind: string)
                 | Host(ip: string, publicPort: nat, privatePort: nat, kind: string)

  // ---------------------------------------------------------------- the order of ports

  /** Go's order on strings. */
  predicate StringLess(a: string, b: string) {
    if b == "" then false
    else if a == "" then true
    else if a[0] != b[0] then a[0] < b[0]
    else StringLess(a[1..], b[1..])
  }

  /** byPortInfo.Less. */
  predicate Less(a: Port, b: Port) {
    if a.privatePort != b.privatePort then a.privatePort < b.privatePort
    else if a.ip != b.ip then StringLess(a.ip, b.ip)
    else if a.publicPort != b.publicPort then a.publicPort < b.publicPort
    else StringLess(a.kind, b.kind)
  }

  lemma {:induction false} StringLessTotal(a: string, b: string)
    ensures !(StringLess(a, b) && StringLess(b, a))
    ensures StringLess(a, b) || StringLess(b, a) || a == b
    ensures !StringLess(a, a)
    decreases |a|
  {
    if a != "" {
      StringLessTotal(a[1..], if b == "" then "" else b[1..]);
      if b != "" && a[0] == b[0] && a[1..] == b[1..] {
        assert a == [a[0]] + a[1..] == [b[0]] + b[1..] == b;
      }
    }
  }

  lemma {:induction false} StringLessTransitive(a: string, b: string, c: string)
    requires StringLess(a, b) && StringLess(b, c)
    ensures StringLess(a, c)
    decreases |a|
  {
    if a != "" && a[0] == b[0] == c[0] { StringLessTransitive(a[1..], b[1..], c[1..]); }
  }

  /** Less is a strict total order, so the sorted list is the same whatever algorithm sorts it. */
  lemma LessIsTotal(a: Port, b: Port)
    ensures !(Less(a, b) && Less(b, a))
    ensures Less(a, b) || Less(b, a) || a == b
  {
    StringLessTotal(a.ip, b.ip);
    StringLessTotal(a.kind, b.kind);
  }

  lemma LessTransitive(a: Port, b: Port, c: Port)
    requires Less(a, b) && Less(b, c)
    ensures Less(a, c)
  {
    StringLessTotal(a.ip, b.ip);
    StringLessTotal(b.ip, c.ip);
    StringLessTotal(a.ip, c.ip);
    if StringLess(a.ip, b.ip) && StringLess(b.ip, c.ip) { StringLessTransitive(a.ip, b.ip, c.ip); }
    if StringLess(a.kind, b.kind) && StringLess(b.kind, c.kind) { StringLessTransitive(a.kind, b.kind, c.kind); }
  }

  /** Strings are compared at their first difference; a beginning comes before the whole. */
  lemma {:induction false} StringLessExactly(a: string, b: string)
    ensures StringLess(a, b) <==> exists k: nat :: DiffersAt(a, b, k)
    decreases |a|
  {
    if a != "" && b != "" && a[0] == b[0] {
      StringLessExactly(a[1..], b[1..]);
      if k: nat :| DiffersAt(a[1..], b[1..], k) { DiffersLater(a, b, k + 1); }
      if k: nat :| DiffersAt(a, b, k) { DiffersLater(a, b, k); }
    } else if StringLess(a, b) {
      assert DiffersAt(a, b, 0);
    } else {
      forall k: nat ensures DiffersAt(a, b, k) && k > 0 ==> a[0] == b[0] { AgreeAtFirst(a, b, k); }
    }
  }

  lemma AgreeAtFirst(a: string, b: string, k: nat)
    ensures DiffersAt(a, b, k) && k > 0 ==> a[0] == b[0]
  {
    if DiffersAt(a, b, k) && k > 0 { assert a[0] == a[..k][0] && b[0] == b[..k][0]; }
  }

  lemma DiffersLater(a: string, b: string, k: nat)
    requires a != "" && b != "" && a[0] == b[0]
    ensures DiffersAt(a, b, k) ==> k > 0
    ensures k > 0 ==> (DiffersAt(a, b, k) <==> DiffersAt(a[1..], b[1..], k - 1))
  {
    if 0 < k <= |a| && k < |b| {
      assert a[..k] == [a[0]] + a[1..][..k - 1] && b[..k] == [b[0]] + b[1..][..k - 1];
      if a[..k] == b[..k] { assert a[1..][..k - 1] == a[..k][1..] == b[..k][1..] == b[1..][..k - 1]; }
    }
  }

  /** `a` and `b` agree up to `k`, where `a` ends or has the smaller character. */
  ghost predicate DiffersAt(a: string, b: string, k: nat) {
    k <= |a| && k < |b| && a[..k] == b[..k] && (k == |a| || a[k] < b[k])
  }

  /** The order is that of private port, address, public port and protocol, in this order. */
  lemma LessExactly(a: Port, b: Port)
    ensures Less(a, b) <==>
              || a.privatePort < b.privatePort
              || (a.privatePort == b.privatePort && StringLess(a.ip, b.ip))
              || (a.privatePort == b.privatePort && a.ip == b.ip && a.publicPort < b.publicPort)
              || (a.privatePort == b.privatePort && a.ip == b.ip && a.publicPort == b.publicPort && StringLess(a.kind, b.kind))
  {
    StringLessTotal(a.ip, b.ip);
    StringLessTotal(a.ip, a.ip);
    StringLessTotal(a.kind, a.kind);
  }

  ghost predicate Ordered(s: seq<Port>) {
    forall i, j :: 0 <= i < j < |s| ==> !Less(s[j], s[i])
  }

  function Insert(p: Port, s: seq<Port>): seq<Port> {
    if s == [] || Less(p, s[0]) then [p] + s else [s[0]] + Insert(p, s[1..])
  }

  /** What sort.Sort leaves in the slice. */
  function Sorted(s: seq<Port>): seq<Port> {
    if s == [] then [] else Insert(s[0], Sorted(s[1..]))
  }

  lemma {:induction false} InsertOrdered(p: Port, s: seq<Port>)
    requires Ordered(s)
    ensures Ordered(Insert(p, s)) && multiset(Insert(p, s)) == multiset(s) + multiset{p}
    decreases |s|
  {
    if s != [] {
      assert s == [s[0]] + s[1..];
      if Less(p, s[0]) {
        var r := [p] + s;
        forall i, j | 0 <= i < j < |r| ensures !Less(r[j], r[i]) {
          LessIsTotal(p, r[j]);
          if i == 0 && j > 1 && Less(r[j], p) { LessTransitive(r[j], p, s[0]); }
        }
      } else {
        InsertOrdered(p, s[1..]);
        var rest := Insert(p, s[1..]);
        forall x | x in rest ensures !Less(x, s[0]) {
          assert x in multiset(rest);
          if x != p { assert x in s[1..]; }
        }
      }
    }
  }

  lemma {:induction false} SortedIsOrdered(s: seq<Port>)
    ensures Ordered(Sorted(s)) && multiset(Sorted(s)) == multiset(s) && |Sorted(s)| == |s|
  {
    if s != [] {
      SortedIsOrdered(s[1..]);
      InsertOrdered(s[0], Sorted(s[1..]));
      assert s == [s[0]] + s[1..];
      assert |multiset(Sorted(s))| == |multiset(s)|;
    }
  }

  // ---------------------------------------------------------------- keys of groups

  /** The map key under which a port is grouped. */
  function Key(ip: string, kind: string): string {
    if ip != "" then ip + "/" + kind else kind
  }

  /** A port that is shown on its own, because its host port differs. */
  predicate IsHostMapping(p: Port) {
    p.ip != "" && p.publicPort != p.privatePort
  }

  /** The part of `s` before its first slash. */
  function UpToSlash(s: string): string {
    if s == "" || s[0] == '/' then "" else [s[0]] + UpToSlash(s[1..])
  }

  lemma {:induction false} UpToSlashIs(a: string, rest: string)
    requires '/' !in a && (rest == "" || rest[0] == '/')
    ensures UpToSlash(a + rest) == a
    decreases |a|
  {
    if a != "" {
      assert (a + rest)[1..] == a[1..] + rest;
      UpToSlashIs(a[1..], rest);
    } else {
      assert a + rest == rest;
    }
  }

  lemma {:induction false} UpToSlashHasNone(s: string)
    ensures '/' !in UpToSlash(s) && |UpToSlash(s)| <= |s|
    ensures |UpToSlash(s)| < |s| ==> s[|UpToSlash(s)|] == '/'
    ensures '/' in s <==> |UpToSlash(s)| < |s|
    ensures UpToSlash(s) == s[..|UpToSlash(s)|]
    decreases |s|
  {
    if s != "" && s[0] != '/' {
      UpToSlashHasNone(s[1..]);
      assert s == [s[0]] + s[1..];
    }
  }

  /** formGroup: the key is taken apart at its slashes. */
  function FormGroup(key: string, first: nat, last: nat): Entry {
    var head := UpToSlash(key);
    if |head| < |key| then Range(head, first, last, UpToSlash(key[|head| + 1..]))
    else Range("", first, last, head)
  }

  /** The names that the text form can carry. */
  predicate Nameable(ip: string, kind: string) {
    '/' !in ip && '/' !in kind
  }

  /** formGroup gives back the address and protocol of a group exactly when they contain no slash. */
  lemma FormGroupInvertsKey(ip: string, kind: string, first: nat, last: nat)
    ensures FormGroup(Key(ip, kind), first, last) == Range(ip, first, last, kind) <==> Nameable(ip, kind)
  {
    var key := Key(ip, kind);
    var head := UpToSlash(key);
    UpToSlashHasNone(key);
    if |head| < |key| { UpToSlashHasNone(key[|head| + 1..]); }
    if Nameable(ip, kind) {
      if ip != "" {
        assert key == ip + ("/" + kind);
        UpToSlashIs(ip, "/" + kind);
        assert key[|ip| + 1..] == kind;
      }
      UpToSlashIs(kind, "");
      assert kind + "" == kind;
    }
  }

  // ---------------------------------------------------------------- what an entry stands for

  /** A port as the display shows it; only host mappings show their host port. */
  datatype Exposed = Exposed(ip: string, privatePort: nat, kind: string, publicPort: Option<nat>)

  function ExposedBy(p: Port): Exposed {
    Exposed(p.ip, p.privatePort, p.kind, if IsHostMapping(p) then Some(p.publicPort) else None)
  }

  function Is(b: bool): nat {
    if b then 1 else 0
  }

  /** How often `x` is among the given ports. */
  function Given(ports: seq<Port>, x: Exposed): nat {
    if ports == [] then 0 else Is(ExposedBy(ports[0]) == x) + Given(ports[1..], x)
  }

  /** Whether an entry, read as the set of ports it stands for, has `x`. */
  predicate Covers(e: Entry, x: Exposed) {
    match e
    case Range(ip, first, last, kind) => x.ip == ip && x.kind == kind && x.publicPort.None? && first <= x.privatePort <= last
    case Host(ip, public, private, kind) => x == Exposed(ip, private, kind, Some(public))
  }

  /** How often `x` is among the ports that the entries stand for. */
  function Shown(entries: seq<Entry>, x: Exposed): nat {
    if entries == [] then 0 else Is(Covers(entries[0], x)) + Shown(entries[1..], x)
  }

  lemma {:induction false} ShownConcat(a: seq<Entry>, b: seq<Entry>, x: Exposed)
    ensures Shown(a + b, x) == Shown(a, x) + Shown(b, x)
    decreases |a|
  {
    if a == [] {
      assert a + b == b;
    } else {
      assert (a + b)[1..] == a[1..] + b;
      ShownConcat(a[1..], b, x);
    }
  }

  lemma ShownAppend(a: seq<Entry>, e: Entry, x: Exposed)
    ensures Shown(a + [e], x) == Shown(a, x) + Is(Covers(e, x))
  {
    ShownConcat(a, [e], x);
    assert [e][1..] == [];
  }

  lemma {:induction false} GivenAppend(a: seq<Port>, p: Port, x: Exposed)
    ensures Given(a + [p], x) == Given(a, x) + Is(ExposedBy(p) == x)
    decreases |a|
  {
    if a == [] {
      assert [p][1..] == [];
      assert a + [p] == [p];
    } else {
      assert (a + [p])[1..] == a[1..] + [p];
      GivenAppend(a[1..], p, x);
    }
  }

  lemma {:induction false} GivenInsert(p: Port, s: seq<Port>, x: Exposed)
    ensures Given(Insert(p, s), x) == Given(s, x) + Is(ExposedBy(p) == x)
    decreases |s|
  {
    if s == [] || Less(p, s[0]) {
      assert ([p] + s)[1..] == s;
    } else {
      GivenInsert(p, s[1..], x);
      assert ([s[0]] + Insert(p, s[1..]))[1..] == Insert(p, s[1..]);
    }
  }

  /** Sorting changes nothing about what is given. */
  lemma {:induction false} GivenSorted(s: seq<Port>, x: Exposed)
    ensures Given(Sorted(s), x) == Given(s, x)
    decreases |s|
  {
    if s != [] {
      GivenSorted(s[1..], x);
      GivenInsert(s[0], Sorted(s[1..]), x);
    }
  }

  // ---------------------------------------------------------------- the loop

  datatype Group = Group(first: nat, last: nat)

  /** groupMap, groupMapKeys, result and hostMappings. */
  datatype Display = Display(groups: map<string, Group>, keys: seq<string>, result: seq<Entry>, hosts: seq<Entry>)

  const NoPorts := Display(map[], [], [], [])

  function OpenEntry(groups: map<string, Group>, key: string): Entry
    requires key in groups
  {
    FormGroup(key, groups[key].first, groups[key].last)
  }

  /** The body of the loop over the sorted ports. */
  function Show(d: Display, p: Port): Display {
    if IsHostMapping(p) then d.(hosts := d.hosts + [Host(p.ip, p.publicPort, p.privatePort, p.kind)])
    else
      var key := Key(p.ip, p.kind);
      var single := Group(p.privatePort, p.privatePort);
      if key !in d.groups then d.(groups := d.groups[key := single], keys := d.keys + [key])
      else if p.privatePort == d.groups[key].last + 1 then d.(groups := d.groups[key := d.groups[key].(last := p.privatePort)])
      else d.(result := d.result + [OpenEntry(d.groups, key)], groups := d.groups[key := single])
  }

  /** The entries of the groups that are still open, in the order of their keys. */
  function OpenEntries(keys: seq<string>, groups: map<string, Group>): seq<Entry>
    requires forall k :: k in keys ==> k in groups
  {
    if keys == [] then [] else [OpenEntry(groups, keys[0])] + OpenEntries(keys[1..], groups)
  }

  ghost predicate Distinct(keys: seq<string>) {
    forall i, j :: 0 <= i < j < |keys| ==> keys[i] != keys[j]
  }

  ghost predicate Displays(d: Display) {
    && Distinct(d.keys)
    && (forall k :: k in d.keys <==> k in d.groups)
    && (forall k :: k in d.groups ==> d.groups[k].first <= d.groups[k].last)
  }

  /** All entries: the closed ranges, the open groups, the host mappings. */
  ghost function Entries(d: Display): seq<Entry>
    requires Displays(d)
  {
    d.result + OpenEntries(d.keys, d.groups) + d.hosts
  }

  lemma {:induction false} OpenIgnores(keys: seq<string>, groups: map<string, Group>, key: string, g: Group)
    requires (forall k :: k in keys ==> k in groups) && key !in keys
    ensures OpenEntries(keys, groups[key := g]) == OpenEntries(keys, groups)
    decreases |keys|
  {
    if keys != [] { OpenIgnores(keys[1..], groups, key, g); }
  }

  lemma {:induction false} OpenAppend(keys: seq<string>, groups: map<string, Group>, key: string)
    requires (forall k :: k in keys ==> k in groups) && key in groups
    ensures OpenEntries(keys + [key], groups) == OpenEntries(keys, groups) + [OpenEntry(groups, key)]
    decreases |keys|
  {
    if keys == [] {
      assert keys + [key] == [key] && [key][1..] == [];
    } else {
      assert (keys + [key])[1..] == keys[1..] + [key];
      OpenAppend(keys[1..], groups, key);
    }
  }

  lemma {:induction false} OpenUpdate(keys: seq<string>, groups: map<string, Group>, key: string, g: Group, x: Exposed)
    requires (forall k :: k in keys ==> k in groups) && key in keys && Distinct(keys)
    ensures Shown(OpenEntries(keys, groups[key := g]), x) + Is(Covers(OpenEntry(groups, key), x))
            == Shown(OpenEntries(keys, groups), x) + Is(Covers(FormGroup(key, g.first, g.last), x))
    decreases |keys|
  {
    hide FormGroup;
    hide Covers;
    var rest := keys[1..];
    if keys[0] == key {
      OpenIgnores(rest, groups, key, g);
    } else {
      OpenUpdate(rest, groups, key, g, x);
    }
    var now, then_ := OpenEntries(keys, groups), OpenEntries(keys, groups[key := g]);
    assert now[1..] == OpenEntries(rest, groups) && then_[1..] == OpenEntries(rest, groups[key := g]);
  }

  lemma EntriesShow(d: Display, x: Exposed)
    requires Displays(d)
    ensures Shown(Entries(d), x) == Shown(d.result, x) + Shown(OpenEntries(d.keys, d.groups), x) + Shown(d.hosts, x)
  {
    ShownConcat(d.result, OpenEntries(d.keys, d.groups), x);
    ShownConcat(d.result + OpenEntries(d.keys, d.groups), d.hosts, x);
  }

  /** One more port shows one more port. */
  lemma ShowAddsThePort(d: Display, p: Port, x: Exposed)
    requires Displays(d) && (!IsHostMapping(p) ==> Nameable(p.ip, p.kind))
    ensures Displays(Show(d, p))
    ensures Shown(Entries(Show(d, p)), x) == Shown(Entries(d), x) + Is(ExposedBy(p) == x)
  {
    hide FormGroup;
    hide Nameable;
    hide Key;
    hide Shown;
    hide OpenEntries;
    var d' := Show(d, p);
    assert Displays(d');
    EntriesShow(d, x);
    EntriesShow(d', x);
    if IsHostMapping(p) {
      ShownAppend(d.hosts, Host(p.ip, p.publicPort, p.privatePort, p.kind), x);
    } else {
      var key, n := Key(p.ip, p.kind), p.privatePort;
      FormGroupInvertsKey(p.ip, p.kind, n, n);
      if key !in d.groups {
        OpenIgnores(d.keys, d.groups, key, Group(n, n));
        OpenAppend(d.keys, d'.groups, key);
        ShownAppend(OpenEntries(d.keys, d'.groups), OpenEntry(d'.groups, key), x);
      } else if n == d.groups[key].last + 1 {
        var g := d.groups[key];
        FormGroupInvertsKey(p.ip, p.kind, g.first, g.last);
        FormGroupInvertsKey(p.ip, p.kind, g.first, n);
        OpenUpdate(d.keys, d.groups, key, g.(last := n), x);
      } else {
        ShownAppend(d.result, OpenEntry(d.groups, key), x);
        OpenUpdate(d.keys, d.groups, key, Group(n, n), x);
      }
    }
  }

  ghost predicate AllNameable(ports: seq<Port>) {
    forall i :: 0 <= i < |ports| && !IsHostMapping(ports[i]) ==> Nameable(ports[i].ip, ports[i].kind)
  }

  function ShowAll(ports: seq<Port>): Display {
    if ports == [] then NoPorts else Show(ShowAll(ports[..|ports| - 1]), ports[|ports| - 1])
  }

  /** Reading the display back gives the ports, each as often as it was given. */
  lemma {:induction false} DisplayExpandsToPorts(ports: seq<Port>, x: Exposed)
    requires AllNameable(ports)
    ensures Displays(ShowAll(ports)) && Shown(Entries(ShowAll(ports)), x) == Given(ports, x)
    decreases |ports|
  {
    hide Show;
    hide Nameable;
    if ports == [] {
      assert Entries(NoPorts) == [];
    } else {
      var n := |ports| - 1;
      DisplayExpandsToPorts(ports[..n], x);
      ShowAddsThePort(ShowAll(ports[..n]), ports[n], x);
      GivenAppend(ports[..n], ports[n], x);
      assert ports == ports[..n] + [ports[n]];
    }
  }

  /** What one port is shown as: a mapping if it is published under another port of an address, else a range of itself. */
  lemma SinglePort(p: Port)
    requires Nameable(p.ip, p.kind)
    ensures Displays(ShowAll([p]))
    ensures Entries(ShowAll([p])) ==
            if p.ip != "" && p.publicPort != p.privatePort then [Host(p.ip, p.publicPort, p.privatePort, p.kind)]
            else [Range(p.ip, p.privatePort, p.privatePort, p.kind)]
  {
    hide FormGroup;
    hide Nameable;
    hide Key;
    FormGroupInvertsKey(p.ip, p.kind, p.privatePort, p.privatePort);
    assert [p][..0] == [] && ShowAll([]) == NoPorts;
    ShowKeepsDisplay(NoPorts, p);
    var d := Show(NoPorts, p);
    assert ShowAll([p]) == d;
    if !(p.ip != "" && p.publicPort != p.privatePort) {
      var key := Key(p.ip, p.kind);
      assert d.keys == [key] && [key][1..] == [];
      assert OpenEntries(d.keys, d.groups) == [OpenEntry(d.groups, key)];
    }
  }

  /** The condition on names is needed: a protocol with a slash is read back as an address. */
  lemma SlashIsReadAsAddress()
    ensures var p := Port("", 80, 0, "a/b");
            FormGroup(Key(p.ip, p.kind), 80, 80) == Range("a", 80, 80, "b")
  {
    UpToSlashIs("a", "/b");
    UpToSlashIs("b", "");
    assert "a" + "/b" == "a/b" && "b" + "" == "b";
    assert "a/b"[2..] == "b";
  }

  // ---------------------------------------------------------------- ranges are maximal

  predicate SameGroup(a: Entry, b: Entry) {
    a.Range? && b.Range? && a.ip == b.ip && a.kind == b.kind
  }

  /** Range `a` ends more than one port before range `b` begins. */
  predicate WellBefore(a: Entry, b: Entry)
    requires a.Range? && b.Range?
  {
    a.last + 1 < b.first
  }

  /** The closed ranges of a group are apart, in ascending order, and below the group's open range. */
  ghost predicate Apart(d: Display) {
    && (forall i :: 0 <= i < |d.result| ==> d.result[i].Range? && d.result[i].first <= d.result[i].last)
    && (forall i :: 0 <= i < |d.hosts| ==> d.hosts[i].Host?)
    && (forall i, j :: 0 <= i < j < |d.result| && SameGroup(d.result[i], d.result[j]) ==> WellBefore(d.result[i], d.result[j]))
    && (forall i, k :: 0 <= i < |d.result| && k in d.groups && SameGroup(d.result[i], OpenEntry(d.groups, k)) ==>
          WellBefore(d.result[i], OpenEntry(d.groups, k)))
    && (forall k :: k in d.groups ==> IsKey(k))
  }

  /** A key that formGroup can take apart. */
  ghost predicate IsKey(k: string) {
    Key(FormGroup(k, 0, 0).ip, FormGroup(k, 0, 0).kind) == k
  }

  /** The last port of every open group was given. */
  ghost predicate LastGiven(d: Display, ports: seq<Port>) {
    forall k :: k in d.groups ==> exists i :: 0 <= i < |ports| && GroupedAt(ports[i], k, d.groups[k].last)
  }

  ghost predicate GroupedAt(p: Port, k: string, n: nat) {
    !IsHostMapping(p) && Key(p.ip, p.kind) == k && p.privatePort == n
  }

  predicate SameKey(p: Port, q: Port) {
    !IsHostMapping(p) && !IsHostMapping(q) && Key(p.ip, p.kind) == Key(q.ip, q.kind)
  }

  /** No port is given twice for one address and protocol. */
  ghost predicate NoRepeats(ports: seq<Port>) {
    forall i, j :: 0 <= i < j < |ports| && SameKey(ports[i], ports[j]) ==> ports[i].privatePort != ports[j].privatePort
  }

  /** Keys tell groups apart. */
  lemma KeysTellGroupsApart(k: string, l: string, a: nat, b: nat, c: nat, e: nat)
    requires IsKey(k) && IsKey(l) && SameGroup(FormGroup(k, a, b), FormGroup(l, c, e))
    ensures k == l
  {}

  /** A port for an existing group that does not continue it closes the group's range. */
  lemma CloseKeepsApart(d: Display, key: string, n: nat)
    requires Apart(d) && Displays(d) && key in d.groups && d.groups[key].last + 1 < n
    ensures Apart(d.(result := d.result + [OpenEntry(d.groups, key)], groups := d.groups[key := Group(n, n)]))
  {
    hide IsKey;
    var closed := OpenEntry(d.groups, key);
    var d' := d.(result := d.result + [closed], groups := d.groups[key := Group(n, n)]);
    forall i, k | 0 <= i < |d'.result| && k in d'.groups && SameGroup(d'.result[i], OpenEntry(d'.groups, k))
      ensures WellBefore(d'.result[i], OpenEntry(d'.groups, k))
    {
      if k == key {
        if i < |d.result| { assert SameGroup(d.result[i], OpenEntry(d.groups, key)); }
      } else if i < |d.result| {
        assert OpenEntry(d'.groups, k) == OpenEntry(d.groups, k);
      } else {
        KeysTellGroupsApart(key, k, d.groups[key].first, d.groups[key].last, d.groups[k].first, d.groups[k].last);
      }
    }
  }

  lemma RegroupKeepsApart(d: Display, key: string, g: Group, keys: seq<string>)
    requires Apart(d) && IsKey(key)
    requires key in d.groups ==> g.first == d.groups[key].first
    requires key !in d.groups ==> forall i :: 0 <= i < |d.result| ==> !SameGroup(d.result[i], FormGroup(key, g.first, g.last))
    ensures Apart(d.(groups := d.groups[key := g], keys := keys))
  {
    hide IsKey;
    var d' := d.(groups := d.groups[key := g], keys := keys);
    forall i, k | 0 <= i < |d'.result| && k in d'.groups && SameGroup(d'.result[i], OpenEntry(d'.groups, k))
      ensures WellBefore(d'.result[i], OpenEntry(d'.groups, k))
    {
      if k == key {
        if key in d.groups { assert SameGroup(d.result[i], OpenEntry(d.groups, key)); }
      } else {
        assert OpenEntry(d'.groups, k) == OpenEntry(d.groups, k);
      }
    }
  }

  /** A closed range belongs to a group that has been opened. */
  ghost predicate ClosedAreGrouped(d: Display) {
    forall i :: 0 <= i < |d.result| && d.result[i].Range? ==> Key(d.result[i].ip, d.result[i].kind) in d.groups
  }

  lemma ShowKeepsApart(d: Display, ports: seq<Port>, p: Port)
    requires Displays(d) && Apart(d) && ClosedAreGrouped(d) && LastGiven(d, ports)
    requires !IsHostMapping(p) ==> Nameable(p.ip, p.kind)
    requires forall i :: 0 <= i < |ports| ==> ports[i].privatePort <= p.privatePort
    requires forall i :: 0 <= i < |ports| && SameKey(ports[i], p) ==> ports[i].privatePort != p.privatePort
    ensures Apart(Show(d, p)) && ClosedAreGrouped(Show(d, p))
  {
    hide Nameable;
    hide FormGroup;
    if !IsHostMapping(p) {
      var key, n := Key(p.ip, p.kind), p.privatePort;
      FormGroupInvertsKey(p.ip, p.kind, 0, 0);
      FormGroupInvertsKey(p.ip, p.kind, n, n);
      assert IsKey(key);
      if key !in d.groups {
        RegroupKeepsApart(d, key, Group(n, n), d.keys + [key]);
      } else {
        var i :| 0 <= i < |ports| && GroupedAt(ports[i], key, d.groups[key].last);
        var g := d.groups[key];
        FormGroupInvertsKey(p.ip, p.kind, g.first, g.last);
        if n == g.last + 1 {
          RegroupKeepsApart(d, key, g.(last := n), d.keys);
        } else {
          CloseKeepsApart(d, key, n);
        }
      }
    }
  }

  lemma ShowLastGiven(d: Display, ports: seq<Port>, p: Port)
    requires LastGiven(d, ports)
    ensures LastGiven(Show(d, p), ports + [p])
  {
    var all := ports + [p];
    var d' := Show(d, p);
    assert all[|ports|] == p;
    forall k | k in d'.groups ensures exists i :: 0 <= i < |all| && GroupedAt(all[i], k, d'.groups[k].last) {
      if k in d.groups && d'.groups[k] == d.groups[k] {
        var i :| 0 <= i < |ports| && GroupedAt(ports[i], k, d.groups[k].last);
        assert all[i] == ports[i];
      } else {
        assert GroupedAt(all[|ports|], k, d'.groups[k].last);
      }
    }
  }

  lemma {:induction false} ShowAllApart(ports: seq<Port>)
    requires AllNameable(ports) && Ordered(ports) && NoRepeats(ports)
    ensures Displays(ShowAll(ports)) && Apart(ShowAll(ports)) && ClosedAreGrouped(ShowAll(ports)) && LastGiven(ShowAll(ports), ports)
    decreases |ports|
  {
    hide Show;
    hide Nameable;
    hide Apart;
    hide Displays;
    hide ClosedAreGrouped;
    hide LastGiven;
    if ports == [] {
      NothingShownApart();
    } else {
      var n := |ports| - 1;
      var before := ports[..n];
      ShowAllApart(before);
      assert ports == before + [ports[n]];
      forall i | 0 <= i < n ensures before[i].privatePort <= ports[n].privatePort { assert !Less(ports[n], ports[i]); }
      ShowKeepsApart(ShowAll(before), before, ports[n]);
      ShowLastGiven(ShowAll(before), before, ports[n]);
      ShowAddsThePort(ShowAll(before), ports[n], ExposedBy(ports[n]));
    }
  }

  lemma NothingShownApart()
    ensures Displays(NoPorts) && Apart(NoPorts) && ClosedAreGrouped(NoPorts) && LastGiven(NoPorts, [])
  {}

  lemma {:induction false} OpenEntryAt(keys: seq<string>, groups: map<string, Group>, i: nat)
    requires (forall k :: k in keys ==> k in groups) && i < |keys|
    ensures |OpenEntries(keys, groups)| == |keys| && OpenEntries(keys, groups)[i] == OpenEntry(groups, keys[i])
    decreases |keys|
  {
    if |keys| > 1 { OpenEntryAt(keys[1..], groups, if i == 0 then 0 else i - 1); }
  }

  /** What the entry at position `i` is: a closed range, an open group or a host mapping. */
  lemma EntryAt(d: Display, i: nat)
    requires Displays(d) && i < |Entries(d)|
    ensures i < |d.result| ==> Entries(d)[i] == d.result[i]
    ensures |d.result| <= i < |d.result| + |d.keys| ==> Entries(d)[i] == OpenEntry(d.groups, d.keys[i - |d.result|])
    ensures |d.result| + |d.keys| <= i ==> Entries(d)[i] in d.hosts
  {
    hide OpenEntry;
    if d.keys != [] { OpenEntryAt(d.keys, d.groups, 0); }
    var r := |d.result|;
    if r <= i < r + |d.keys| { OpenEntryAt(d.keys, d.groups, i - r); }
  }

  /** Two ranges of one group never touch. */
  lemma RangesDoNotTouch(d: Display, i: nat, j: nat)
    requires Displays(d) && Apart(d)
    requires i < j < |Entries(d)| && SameGroup(Entries(d)[i], Entries(d)[j])
    ensures WellBefore(Entries(d)[i], Entries(d)[j])
  {
    hide Entries;
    hide FormGroup;
    hide IsKey;
    EntryAt(d, i);
    EntryAt(d, j);
    var r := |d.result|;
    if i >= r {
      assert d.keys[i - r] in d.groups && d.keys[j - r] in d.groups;
      OpenEntriesDiffer(d.groups, d.keys[i - r], d.keys[j - r]);
    }
  }

  lemma OpenEntriesDiffer(groups: map<string, Group>, k: string, l: string)
    requires k in groups && l in groups && IsKey(k) && IsKey(l) && k != l
    ensures !SameGroup(OpenEntry(groups, k), OpenEntry(groups, l))
  {
    if SameGroup(OpenEntry(groups, k), OpenEntry(groups, l)) {
      KeysTellGroupsApart(k, l, groups[k].first, groups[k].last, groups[l].first, groups[l].last);
    }
  }

  lemma RangeIsNotEmpty(d: Display, i: nat)
    requires Displays(d) && Apart(d) && i < |Entries(d)| && Entries(d)[i].Range?
    ensures Entries(d)[i].first <= Entries(d)[i].last
  {
    hide Entries;
    EntryAt(d, i);
  }

  lemma {:induction false} SomebodyShows(entries: seq<Entry>, x: Exposed) returns (i: nat)
    requires Shown(entries, x) > 0
    ensures i < |entries| && Covers(entries[i], x)
    decreases |entries|
  {
    if Covers(entries[0], x) { i := 0; } else {
      i := SomebodyShows(entries[1..], x);
      i := i + 1;
    }
  }

  /** A range none of whose neighbours is among the ports. */
  ghost predicate Maximal(ports: seq<Port>, e: Entry) {
    e.Range? ==>
      && e.first <= e.last
      && Given(ports, Exposed(e.ip, e.last + 1, e.kind, None)) == 0
      && (e.first > 0 ==> Given(ports, Exposed(e.ip, e.first - 1, e.kind, None)) == 0)
  }

  /** With no port given twice, two ranges of one address and protocol are more than one port apart, the lower one first. */
  lemma RangesAreApart(ports: seq<Port>, i: nat, j: nat)
    requires AllNameable(ports) && Ordered(ports) && NoRepeats(ports)
    ensures Displays(ShowAll(ports))
    ensures i < j < |Entries(ShowAll(ports))| && SameGroup(Entries(ShowAll(ports))[i], Entries(ShowAll(ports))[j]) ==>
              WellBefore(Entries(ShowAll(ports))[i], Entries(ShowAll(ports))[j])
  {
    hide ShowAll;
    hide Apart;
    hide Entries;
    hide Displays;
    ShowAllApart(ports);
    var d := ShowAll(ports);
    if i < j < |Entries(d)| && SameGroup(Entries(d)[i], Entries(d)[j]) { RangesDoNotTouch(d, i, j); }
  }

  /** With no port given twice, every range is a maximal run: neither neighbour of a range was given. */
  lemma RangesAreMaximal(ports: seq<Port>, i: nat)
    requires AllNameable(ports) && Ordered(ports) && NoRepeats(ports)
    ensures Displays(ShowAll(ports))
    ensures i < |Entries(ShowAll(ports))| ==> Maximal(ports, Entries(ShowAll(ports))[i])
  {
    hide ShowAll;
    hide Apart;
    hide Entries;
    hide Displays;
    hide Given;
    hide AllNameable;
    hide NoRepeats;
    hide Ordered;
    ShowAllApart(ports);
    var d := ShowAll(ports);
    var entries := Entries(d);
    if i < |entries| && entries[i].Range? {
      var e := entries[i];
      RangeIsNotEmpty(d, i);
      var above := Exposed(e.ip, e.last + 1, e.kind, None);
      NotShownBeside(ports, i, above);
      if e.first > 0 { NotShownBeside(ports, i, Exposed(e.ip, e.first - 1, e.kind, None)); }
    }
  }

  lemma NotShownBeside(ports: seq<Port>, i: nat, x: Exposed)
    requires AllNameable(ports) && Displays(ShowAll(ports)) && Apart(ShowAll(ports))
    requires i < |Entries(ShowAll(ports))| && Entries(ShowAll(ports))[i].Range?
    requires var e := Entries(ShowAll(ports))[i];
             && e.first <= e.last
             && x.ip == e.ip && x.kind == e.kind && x.publicPort.None?
             && (x.privatePort == e.last + 1 || x.privatePort + 1 == e.first)
    ensures Given(ports, x) == 0
  {
    hide ShowAll;
    hide Apart;
    hide Entries;
    hide Displays;
    DisplayExpandsToPorts(ports, x);
    var d := ShowAll(ports);
    if Shown(Entries(d), x) > 0 {
      var j := SomebodyShows(Entries(d), x);
      if i < j { RangesDoNotTouch(d, i, j); }
      if j < i { RangesDoNotTouch(d, j, i); }
    }
  }

  // ---------------------------------------------------------------- when the display can be read back

  ghost predicate SlashFree(e: Entry) {
    e.Range? ==> Nameable(e.ip, e.kind)
  }

  ghost predicate AllSlashFree(d: Display) {
    && (forall i :: 0 <= i < |d.result| ==> SlashFree(d.result[i]))
    && (forall i :: 0 <= i < |d.hosts| ==> d.hosts[i].Host?)
  }

  lemma FormGroupIsSlashFree(key: string, first: nat, last: nat)
    ensures SlashFree(FormGroup(key, first, last))
  {
    var head := UpToSlash(key);
    UpToSlashHasNone(key);
    if |head| < |key| { UpToSlashHasNone(key[|head| + 1..]); }
  }

  lemma {:induction false} ShowAllIsSlashFree(ports: seq<Port>)
    ensures Displays(ShowAll(ports)) && AllSlashFree(ShowAll(ports))
    decreases |ports|
  {
    hide FormGroup;
    hide Nameable;
    if ports != [] {
      var n := |ports| - 1;
      var before, key := ShowAll(ports[..n]), Key(ports[n].ip, ports[n].kind);
      ShowAllIsSlashFree(ports[..n]);
      ShowKeepsDisplay(before, ports[n]);
      if key in before.groups { FormGroupIsSlashFree(key, before.groups[key].first, before.groups[key].last); }
    }
  }

  /** No entry stands for a port whose address or protocol has a slash. */
  lemma SlashIsNotShown(d: Display, x: Exposed)
    requires Displays(d) && AllSlashFree(d) && x.publicPort.None? && !Nameable(x.ip, x.kind)
    ensures Shown(Entries(d), x) == 0
  {
    hide Entries;
    hide FormGroup;
    if Shown(Entries(d), x) > 0 {
      var i := SomebodyShows(Entries(d), x);
      EntryAt(d, i);
      var r := |d.result|;
      if r <= i < r + |d.keys| {
        var g := d.groups[d.keys[i - r]];
        FormGroupIsSlashFree(d.keys[i - r], g.first, g.last);
      }
    }
  }

  lemma {:induction false} GivenIsGiven(ports: seq<Port>, i: nat)
    requires i < |ports|
    ensures Given(ports, ExposedBy(ports[i])) > 0
    decreases |ports|
  {
    if i > 0 { GivenIsGiven(ports[1..], i - 1); }
  }

  /** The display gives the ports back exactly when no grouped port has a slash in its address or protocol. */
  lemma DisplayExpandsExactly(ports: seq<Port>)
    ensures Displays(ShowAll(ports))
    ensures (forall x :: Shown(Entries(ShowAll(ports)), x) == Given(ports, x)) <==> AllNameable(ports)
  {
    hide ShowAll;
    hide Entries;
    hide Shown;
    hide Given;
    hide Nameable;
    ShowAllIsSlashFree(ports);
    if AllNameable(ports) {
      forall x ensures Shown(Entries(ShowAll(ports)), x) == Given(ports, x) { DisplayExpandsToPorts(ports, x); }
    } else {
      var i :| 0 <= i < |ports| && !IsHostMapping(ports[i]) && !Nameable(ports[i].ip, ports[i].kind);
      GivenIsGiven(ports, i);
      SlashIsNotShown(ShowAll(ports), ExposedBy(ports[i]));
    }
  }

  // ---------------------------------------------------------------- the code

  /** sort.Sort(byPortInfo(ports)), in place. */
  method SortPorts(ports: array<Port>)
    modifies ports
    ensures ports[..] == Sorted(old(ports[..]))
  {
    var s := Sorted(ports[..]);
    SortedIsOrdered(ports[..]);
    for i := 0 to ports.Length
      invariant |s| == ports.Length && s == Sorted(old(ports[..]))
      invariant ports[..i] == s[..i]
    {
      ports[i] := s[i];
    }
  }

  /** The loop over the sorted ports. */
  method GroupPorts(ports: seq<Port>) returns (d: Display)
    ensures d == ShowAll(ports) && Displays(d)
  {
    var groups: map<string, Group> := map[];
    var keys: seq<string> := [];
    var result: seq<Entry> := [];
    var hosts: seq<Entry> := [];
    for i := 0 to |ports|
      invariant Display(groups, keys, result, hosts) == ShowAll(ports[..i])
      invariant Displays(ShowAll(ports[..i]))
    {
      hide Displays;
      hide FormGroup;
      hide Key;
      var p := ports[i];
      ShowKeepsDisplay(ShowAll(ports[..i]), p);
      assert ports[..i + 1][..i] == ports[..i] && ports[..i + 1][i] == p;
      if p.ip != "" && p.publicPort != p.privatePort {
        hosts := hosts + [Host(p.ip, p.publicPort, p.privatePort, p.kind)];
      } else {
        var key := Key(p.ip, p.kind);
        if key !in groups {
          groups := groups[key := Group(p.privatePort, p.privatePort)];
          keys := keys + [key];
        } else if p.privatePort == groups[key].last + 1 {
          groups := groups[key := groups[key].(last := p.privatePort)];
        } else {
          result := result + [FormGroup(key, groups[key].first, groups[key].last)];
          groups := groups[key := Group(p.privatePort, p.privatePort)];
        }
      }
    }
    assert ports[..|ports|] == ports;
    d := Display(groups, keys, result, hosts);
  }

  /** The loop over the keys of the groups still open. */
  method CloseGroups(d: Display) returns (result: seq<Entry>)
    requires Displays(d)
    ensures result == d.result + OpenEntries(d.keys, d.groups)
  {
    hide FormGroup;
    result := d.result;
    assert OpenEntries(d.keys[..0], d.groups) == [];
    for i := 0 to |d.keys|
      invariant result == d.result + OpenEntries(d.keys[..i], d.groups)
    {
      result := result + [FormGroup(d.keys[i], d.groups[d.keys[i]].first, d.groups[d.keys[i]].last)];
      OpenAppend(d.keys[..i], d.groups, d.keys[i]);
      assert d.keys[..i + 1] == d.keys[..i] + [d.keys[i]];
    }
    assert d.keys[..|d.keys|] == d.keys;
  }

  /**
    DisplayablePorts, without the rendering of its entries: it sorts the ports in place, and its
    entries stand for exactly the ports it was given.
  */
  method DisplayablePorts(ports: array<Port>) returns (entries: seq<Entry>)
    modifies ports
    ensures multiset(ports[..]) == multiset(old(ports[..])) && Ordered(ports[..])
    ensures Displays(ShowAll(ports[..])) && entries == Entries(ShowAll(ports[..]))
    ensures AllNameable(old(ports[..])) <==> forall x :: Shown(entries, x) == Given(old(ports[..]), x)
    ensures AllNameable(old(ports[..])) && NoRepeats(old(ports[..])) ==> forall i :: 0 <= i < |entries| ==> Maximal(old(ports[..]), entries[i])
  {
    hide ShowAll;
    hide Sorted;
    hide AllNameable;
    hide Displays;
    hide Given;
    hide Shown;
    hide NoRepeats;
    SortedIsOrdered(ports[..]);
    SortPorts(ports);
    var d := GroupPorts(ports[..]);
    var result := CloseGroups(d);
    entries := result + d.hosts;
    SortedNameable(old(ports[..]));
    forall x ensures Given(ports[..], x) == Given(old(ports[..]), x) { GivenSorted(old(ports[..]), x); }
    DisplayExpandsExactly(ports[..]);
    if AllNameable(old(ports[..])) && NoRepeats(old(ports[..])) {
      SortedNoRepeats(old(ports[..]));
      forall i | 0 <= i < |entries| ensures Maximal(old(ports[..]), entries[i]) { RangesAreMaximal(ports[..], i); }
    }
  }

  lemma {:induction false} TwiceInSeq(s: seq<Port>, p: Port) returns (i: nat, j: nat)
    requires multiset(s)[p] >= 2
    ensures i < j < |s| && s[i] == s[j] == p
    decreases |s|
  {
    var n := |s| - 1;
    assert s == s[..n] + [s[n]];
    if s[n] == p {
      assert p in multiset(s[..n]);
      i :| 0 <= i < n && s[i] == p;
      j := n;
    } else {
      i, j := TwiceInSeq(s[..n], p);
    }
  }

  lemma CountsTwice(s: seq<Port>, i: nat, j: nat)
    requires i < j < |s| && s[i] == s[j]
    ensures multiset(s)[s[i]] >= 2
  {
    assert s == s[..j] + [s[j]] + s[j + 1..];
    assert s[i] in s[..j];
  }

  /** Sorting brings in no repeated port. */
  lemma SortedNoRepeats(s: seq<Port>)
    requires NoRepeats(s)
    ensures NoRepeats(Sorted(s))
  {
    SortedIsOrdered(s);
    var t := Sorted(s);
    forall i, j | 0 <= i < j < |t| && SameKey(t[i], t[j]) ensures t[i].privatePort != t[j].privatePort {
      if t[i] == t[j] {
        CountsTwice(t, i, j);
        var k, l := TwiceInSeq(s, t[i]);
      } else {
        assert t[i] in multiset(s) && t[j] in multiset(s);
        var k :| 0 <= k < |s| && s[k] == t[i];
        var l :| 0 <= l < |s| && s[l] == t[j];
        if k < l { assert SameKey(s[k], s[l]); } else { assert SameKey(s[l], s[k]); }
      }
    }
  }

  lemma ShowKeepsDisplay(d: Display, p: Port)
    requires Displays(d)
    ensures Displays(Show(d, p))
  {}

  lemma SortedNameable(s: seq<Port>)
    ensures AllNameable(Sorted(s)) <==> AllNameable(s)
  {
    SortedIsOrdered(s);
    SameElements(s, Sorted(s));
  }

  lemma SameElements(a: seq<Port>, b: seq<Port>)
    requires multiset(a) == multiset(b)
    ensures AllNameable(a) <==> AllNameable(b)
  {
    forall i | 0 <= i < |a| ensures a[i] in b { assert a[i] in multiset(b); }
    forall i | 0 <= i < |b| ensures b[i] in a { assert b[i] in multiset(a); }
  }
}
