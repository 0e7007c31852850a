/** What the tool table means: its refinement of a table keyed by tenant, name and version, the
    choice of the latest version, and listing. */
module ToolTable {
  import opened Sequences
  import opened Text
  import opened Domain
  import opened Versions
  import SemVer
  import Int64

  /** The concrete table: definitions under their concatenated keys. */
  type Tools = map<string, ToolDefinition>

  // ----- refinement of a table keyed by identity -----

  /** Every definition sits under the key of its own fields. */
  ghost predicate KeyedByFields(m: Tools) {
    forall k :: k in m ==> k == KeyOf(IdentOf(m[k]))
  }

  /** The table by identity that m stands for. */
  ghost function Abstract(m: Tools): map<Ident, ToolDefinition> {
    map id | id in Identities(m) && KeyOf(id) in m :: m[KeyOf(id)]
  }

  ghost function Identities(m: Tools): set<Ident> {
    set k | k in m :: IdentOf(m[k])
  }

  ghost predicate AllSlashFree(m: Tools) {
    forall k :: k in m ==> SlashFree(IdentOf(m[k]))
  }

  function Save(m: Tools, d: ToolDefinition): Tools {
    m[KeyOf(IdentOf(d)) := d]
  }

  predicate OfFamily(d: ToolDefinition, tenant: string, name: string) {
    d.tenant == tenant && d.name == name
  }

  ghost function WithoutFamily(m: Tools, tenant: string, name: string): Tools {
    map k | k in m && !OfFamily(m[k], tenant, name) :: m[k]
  }

  lemma AbstractLookup(m: Tools, id: Ident)
    requires KeyedByFields(m)
    ensures id in Abstract(m) <==> KeyOf(id) in m && IdentOf(m[KeyOf(id)]) == id
    ensures id in Abstract(m) ==> Abstract(m)[id] == m[KeyOf(id)]
  {
  }

  lemma AbstractValues(m: Tools)
    requires KeyedByFields(m)
    ensures Abstract(m).Values == m.Values
  {
    forall d ensures d in Abstract(m).Values <==> d in m.Values {
      if d in m.Values {
        var k :| k in m && m[k] == d;
        assert IdentOf(d) in Abstract(m);
      }
    }
  }

  /** Another registration of m holds the key of id. */
  ghost predicate Clash(m: Tools, id: Ident) {
    KeyOf(id) in m && IdentOf(m[KeyOf(id)]) != id
  }

  // A lookup answers as the table by identity does exactly when no other registration holds the key.
  lemma GetRefines(m: Tools, id: Ident)
    requires KeyedByFields(m)
    ensures (if KeyOf(id) in m then Some(m[KeyOf(id)]) else None)
         == (if id in Abstract(m) then Some(Abstract(m)[id]) else None)
       <==> !Clash(m, id)
  {
    AbstractLookup(m, id);
  }

  lemma SaveKeyed(m: Tools, d: ToolDefinition)
    requires KeyedByFields(m)
    ensures KeyedByFields(Save(m, d))
  {
  }

  /** The table by identity after d took its key from whoever held it. */
  ghost function Overwrite(tools: map<Ident, ToolDefinition>, d: ToolDefinition): map<Ident, ToolDefinition> {
    (map id | id in tools && KeyOf(id) != KeyOf(IdentOf(d)) :: tools[id])[IdentOf(d) := d]
  }

  /** Another identity of the table has the key of id. */
  ghost predicate Taken(tools: map<Ident, ToolDefinition>, id: Ident) {
    exists other :: other in tools && other != id && KeyOf(other) == KeyOf(id)
  }

  lemma ClashIsTaken(m: Tools, id: Ident)
    requires KeyedByFields(m)
    ensures Clash(m, id) <==> Taken(Abstract(m), id)
  {
    if KeyOf(id) in m { AbstractLookup(m, IdentOf(m[KeyOf(id)])); }
    forall other | other in Abstract(m) ensures KeyOf(other) in m && IdentOf(m[KeyOf(other)]) == other {
      AbstractLookup(m, other);
    }
  }

  // What a save always does to the table by identity.
  lemma SaveOverwrites(m: Tools, d: ToolDefinition)
    requires KeyedByFields(m)
    ensures Abstract(Save(m, d)) == Overwrite(Abstract(m), d)
  {
    var a, b := Overwrite(Abstract(m), d), Abstract(Save(m, d));
    forall id ensures (id in b <==> id in a) && (id in b ==> b[id] == a[id]) {
      SaveAt(m, d, id);
    }
    SameMap(a, b);
  }

  lemma SaveAt(m: Tools, d: ToolDefinition, id: Ident)
    requires KeyedByFields(m)
    ensures var a, b := Overwrite(Abstract(m), d), Abstract(Save(m, d));
      (id in b <==> id in a) && (id in b ==> b[id] == a[id])
  {
    SaveKeyed(m, d);
    AbstractLookup(m, id);
    AbstractLookup(Save(m, d), id);
  }

  lemma SameMap(a: map<Ident, ToolDefinition>, b: map<Ident, ToolDefinition>)
    requires forall id :: (id in b <==> id in a) && (id in b ==> b[id] == a[id])
    ensures a == b
  {
  }

  lemma OverwriteIsInsert(tools: map<Ident, ToolDefinition>, d: ToolDefinition)
    ensures Overwrite(tools, d) == tools[IdentOf(d) := d] <==> !Taken(tools, IdentOf(d))
  {
    if other :| other in tools && other != IdentOf(d) && KeyOf(other) == KeyOf(IdentOf(d)) {
      assert other in tools[IdentOf(d) := d] && other !in Overwrite(tools, d);
    } else {
      SameMap(tools[IdentOf(d) := d], Overwrite(tools, d));
    }
  }

  // So a save is an insert by identity exactly when no other registration holds the key.
  lemma SaveRefines(m: Tools, d: ToolDefinition)
    requires KeyedByFields(m)
    ensures Abstract(Save(m, d)) == Abstract(m)[IdentOf(d) := d] <==> !Clash(m, IdentOf(d))
  {
    SaveOverwrites(m, d);
    ClashIsTaken(m, IdentOf(d));
    OverwriteIsInsert(Abstract(m), d);
  }

  lemma ClashLosesRegistration(m: Tools, d: ToolDefinition)
    requires KeyedByFields(m) && Clash(m, IdentOf(d))
    ensures exists id :: id in Abstract(m) && id != IdentOf(d) && id !in Abstract(Save(m, d))
  {
    ClashIsTaken(m, IdentOf(d));
    var id :| id in Abstract(m) && id != IdentOf(d) && KeyOf(id) == KeyOf(IdentOf(d));
    SaveAt(m, d, id);
    assert id !in Abstract(Save(m, d));
  }

  // Slash-free tenants and names leave no room for such a clash.
  lemma NoClash(m: Tools, id: Ident)
    requires KeyedByFields(m) && AllSlashFree(m) && SlashFree(id)
    ensures !Clash(m, id)
  {
    if KeyOf(id) in m {
      KeyInjective(IdentOf(m[KeyOf(id)]), id);
    }
  }

  // Tenants are isolated as soon as they are slash-free, whatever the names.
  lemma SaveKeepsOtherTenants(m: Tools, d: ToolDefinition, k: string)
    requires KeyedByFields(m) && k in m && m[k].tenant != d.tenant
    requires Free(m[k].tenant, '/') && Free(d.tenant, '/')
    ensures k in Save(m, d) && Save(m, d)[k] == m[k]
  {
    if k == KeyOf(IdentOf(d)) {
      KeysOfTenantsDisjoint(IdentOf(m[k]), IdentOf(d));
    }
  }

  // Deleting a family removes its identities and no other, with or without slashes.
  lemma DeleteRefines(m: Tools, tenant: string, name: string)
    requires KeyedByFields(m)
    ensures KeyedByFields(WithoutFamily(m, tenant, name))
    ensures Abstract(WithoutFamily(m, tenant, name))
         == map id | id in Abstract(m) && !(id.tenant == tenant && id.name == name) :: Abstract(m)[id]
  {
    var w := WithoutFamily(m, tenant, name);
    forall id
      ensures id in Abstract(w) <==> id in Abstract(m) && !(id.tenant == tenant && id.name == name)
      ensures id in Abstract(w) ==> Abstract(w)[id] == Abstract(m)[id]
    {
      DeleteAt(m, tenant, name, id);
    }
  }

  lemma DeleteAt(m: Tools, tenant: string, name: string, id: Ident)
    requires KeyedByFields(m)
    ensures var w := WithoutFamily(m, tenant, name);
      && (id in Abstract(w) <==> id in Abstract(m) && !(id.tenant == tenant && id.name == name))
      && (id in Abstract(w) ==> Abstract(w)[id] == Abstract(m)[id])
  {
    AbstractLookup(WithoutFamily(m, tenant, name), id);
    AbstractLookup(m, id);
  }

  // ----- the latest version -----

  ghost function Family(defs: set<ToolDefinition>, tenant: string, name: string): set<ToolDefinition> {
    set d | d in defs && OfFamily(d, tenant, name)
  }

  /** d has the greatest version of the family. */
  ghost predicate Latest(d: ToolDefinition, fam: set<ToolDefinition>) {
    d in fam && forall e :: e in fam ==> Order(e.version, d.version) <= 0
  }

  /** The candidate and the version the scan remembers; "" also stands for no candidate. */
  datatype Candidate = Candidate(best: Option<ToolDefinition>, bestV: string)

  ghost function Consider(c: Candidate, d: ToolDefinition): Candidate {
    if c.bestV == "" || Order(d.version, c.bestV) > 0 then Candidate(Some(d), d.version) else c
  }

  /** The candidate after visiting the entries ks of m in that order. */
  ghost function Scan(m: Tools, ks: seq<string>, tenant: string, name: string): Candidate
    requires forall k :: k in ks ==> k in m
  {
    if ks == [] then Candidate(None, "")
    else
      var c, d := Scan(m, ks[..|ks| - 1], tenant, name), m[ks[|ks| - 1]];
      if OfFamily(d, tenant, name) then Consider(c, d) else c
  }

  /** The part of the family that the entries ks hold. */
  ghost function Seen(m: Tools, ks: seq<string>, tenant: string, name: string): set<ToolDefinition>
    requires forall k :: k in ks ==> k in m
  {
    Family(set k | k in ks :: m[k], tenant, name)
  }

  /** An empty version in the family ranks above every other member. */
  ghost predicate EmptyOnTop(fam: set<ToolDefinition>) {
    && (exists e :: e in fam && e.version == "")
    && forall d :: d in fam && d.version != "" ==> Order(d.version, "") < 0
  }

  /** What the candidate is worth: the latest seen, unless an empty version is on top, in which case
      the next visit replaced or will replace it. */
  ghost predicate Weighs(c: Candidate, seen: set<ToolDefinition>) {
    && (c.best.None? <==> seen == {})
    && (c.best.None? ==> c.bestV == "")
    && (c.best.Some? ==> c.best.value in seen && c.bestV == c.best.value.version)
    && (c.best.Some? && !EmptyOnTop(seen) ==> c.bestV != "" && Latest(c.best.value, seen))
  }

  lemma ConsiderWeighs(c: Candidate, seen: set<ToolDefinition>, d: ToolDefinition)
    requires Weighs(c, seen)
    ensures Weighs(Consider(c, d), seen + {d})
  {
    var next, seen' := Consider(c, d), seen + {d};
    if seen == {} {
      OrderReflexive(d.version);
    } else if EmptyOnTop(seen) {
      AddToEmptyOnTop(c, seen, d);
    } else {
      var best := c.best.value;
      OrderAntisymmetric(d.version, best.version);
      forall e | e in seen ensures Order(d.version, best.version) > 0 ==> Order(e.version, d.version) < 0 {
        if Order(d.version, best.version) > 0 { OrderTransitive(e.version, best.version, d.version); }
      }
      OrderReflexive(d.version);
    }
  }

  lemma AddToEmptyOnTop(c: Candidate, seen: set<ToolDefinition>, d: ToolDefinition)
    requires Weighs(c, seen) && EmptyOnTop(seen)
    ensures Weighs(Consider(c, d), seen + {d})
  {
    if d.version == "" || Order(d.version, "") < 0 {
      assert EmptyOnTop(seen + {d});
    } else {
      OrderAntisymmetric(d.version, "");
      OrderReflexive(d.version);
      forall e | e in seen ensures Order(e.version, d.version) <= 0 {
        if e.version != "" { OrderTransitive(e.version, "", d.version); }
      }
      OrderAntisymmetric(c.bestV, d.version);
      if c.bestV != "" { OrderTransitive(c.bestV, "", d.version); }
    }
  }

  lemma {:induction false} ScanWeighs(m: Tools, ks: seq<string>, tenant: string, name: string)
    requires forall k :: k in ks ==> k in m
    ensures Weighs(Scan(m, ks, tenant, name), Seen(m, ks, tenant, name))
  {
    if ks == [] {
    } else {
      var front, k := ks[..|ks| - 1], ks[|ks| - 1];
      ScanWeighs(m, front, tenant, name);
      SeenSnoc(m, front, k, tenant, name);
      assert ks == front + [k];
      if OfFamily(m[k], tenant, name) {
        ConsiderWeighs(Scan(m, front, tenant, name), Seen(m, front, tenant, name), m[k]);
      }
    }
  }

  lemma SeenSnoc(m: Tools, ks: seq<string>, k: string, tenant: string, name: string)
    requires k in m && forall j :: j in ks ==> j in m
    ensures Seen(m, ks + [k], tenant, name)
         == Seen(m, ks, tenant, name) + if OfFamily(m[k], tenant, name) then {m[k]} else {}
  {
    assert forall j :: j in ks + [k] <==> j in ks || j == k;
  }

  lemma SeenAll(m: Tools, ks: seq<string>, tenant: string, name: string)
    requires Enumerates(ks, m.Keys)
    ensures Seen(m, ks, tenant, name) == Family(m.Values, tenant, name)
  {
    assert (set k | k in ks :: m[k]) == m.Values by {
      forall d | d in m.Values ensures exists k :: k in ks && m[k] == d {
        var k :| k in m && m[k] == d;
      }
    }
  }

  /** The candidate of some visiting order of the whole table. */
  ghost predicate SomeOrderGives(m: Tools, tenant: string, name: string, r: Option<ToolDefinition>) {
    exists ks :: Enumerates(ks, m.Keys) && Scan(m, ks, tenant, name).best == r
  }

  /** The "" sentinel cannot mislead the scan: no empty version tops other members of the family. */
  ghost predicate SentinelHarmless(fam: set<ToolDefinition>) {
    EmptyOnTop(fam) ==> forall d, e :: d in fam && e in fam ==> d == e
  }

  // Every visiting order finds a member when there is one, and the latest if the sentinel is harmless.
  lemma EveryOrderFindsLatest(m: Tools, tenant: string, name: string, r: Option<ToolDefinition>)
    requires SomeOrderGives(m, tenant, name, r)
    ensures var fam := Family(m.Values, tenant, name);
      && (r.None? <==> fam == {})
      && (r.Some? ==> r.value in fam)
      && (r.Some? && SentinelHarmless(fam) ==> Latest(r.value, fam))
  {
    var ks :| Enumerates(ks, m.Keys) && Scan(m, ks, tenant, name).best == r;
    ScanWeighs(m, ks, tenant, name);
    SeenAll(m, ks, tenant, name);
    if r.Some? { OrderReflexive(r.value.version); }
  }

  // When it is not harmless, visiting the empty version and then another member last misses it.
  lemma SomeOrderMisses(m: Tools, tenant: string, name: string) returns (r: Option<ToolDefinition>)
    requires KeyedByFields(m) && !SentinelHarmless(Family(m.Values, tenant, name))
    ensures SomeOrderGives(m, tenant, name, r) && r.Some?
    ensures !Latest(r.value, Family(m.Values, tenant, name))
  {
    var fam := Family(m.Values, tenant, name);
    var e :| e in fam && e.version == "";
    var d :| d in fam && d != e;
    r := Some(d);
    var ke, kd := KeyOf(IdentOf(e)), KeyOf(IdentOf(d));
    assert ke in m && m[ke] == e && kd in m && m[kd] == d;
    var front := EnumerationEndingWith(m.Keys, ke, kd);
    EmptyTopsFront(m, front, e, tenant, name);
    ScanOfLastTwo(m, front, ke, kd, tenant, name);
    assert Scan(m, front + [ke] + [kd], tenant, name).best == r;
    OrderAntisymmetric(d.version, "");
  }

  lemma EnumerationEndingWith(keys: set<string>, x: string, y: string) returns (front: seq<string>)
    requires x in keys && y in keys && x != y
    ensures Enumerates(front + [x] + [y], keys)
    ensures forall k :: k in front ==> k in keys && k != x && k != y
  {
    front := SomeEnumeration(keys - {x, y});
    EnumeratesExtend(front, keys - {x, y}, x);
    EnumeratesExtend(front + [x], keys - {x, y} + {x}, y);
    assert keys - {x, y} + {x} + {y} == keys;
  }

  // An empty version that becomes the candidate loses the place to the next member visited.
  lemma ScanOfLastTwo(m: Tools, front: seq<string>, ke: string, kd: string, tenant: string, name: string)
    requires ke in m && kd in m && forall k :: k in front ==> k in m
    requires OfFamily(m[ke], tenant, name) && m[ke].version == "" && OfFamily(m[kd], tenant, name)
    requires Consider(Scan(m, front, tenant, name), m[ke]).best == Some(m[ke])
    requires Weighs(Scan(m, front, tenant, name), Seen(m, front, tenant, name))
    ensures forall k :: k in front + [ke] + [kd] ==> k in m
    ensures Scan(m, front + [ke] + [kd], tenant, name).best == Some(m[kd])
  {
    ScanSnoc(m, front, ke, tenant, name);
    ScanSnoc(m, front + [ke], kd, tenant, name);
  }

  lemma ScanSnoc(m: Tools, ks: seq<string>, k: string, tenant: string, name: string)
    requires k in m && forall j :: j in ks ==> j in m
    ensures forall j :: j in ks + [k] ==> j in m
    ensures Scan(m, ks + [k], tenant, name) ==
      if OfFamily(m[k], tenant, name) then Consider(Scan(m, ks, tenant, name), m[k])
      else Scan(m, ks, tenant, name)
  {
    assert (ks + [k])[..|ks|] == ks;
  }

  // An empty version on top of the family replaces the candidate of any other visited members.
  lemma EmptyTopsFront(m: Tools, front: seq<string>, e: ToolDefinition, tenant: string, name: string)
    requires KeyedByFields(m) && EmptyOnTop(Family(m.Values, tenant, name))
    requires e in Family(m.Values, tenant, name) && e.version == ""
    requires forall k :: k in front ==> k in m && k != KeyOf(IdentOf(e))
    ensures Consider(Scan(m, front, tenant, name), e).best == Some(e)
    ensures Weighs(Scan(m, front, tenant, name), Seen(m, front, tenant, name))
  {
    var c := Scan(m, front, tenant, name);
    ScanWeighs(m, front, tenant, name);
    if c.best.Some? {
      var k :| k in front && m[k] == c.best.value;
      assert c.best.value in Family(m.Values, tenant, name) && c.best.value.version != "";
      OrderAntisymmetric(c.bestV, "");
    }
  }

  // The exact condition under which the latest version is found for every visiting order.
  lemma LatestExactlyWhenHarmless(m: Tools, tenant: string, name: string)
    requires KeyedByFields(m)
    ensures SentinelHarmless(Family(m.Values, tenant, name))
       <==> forall r :: SomeOrderGives(m, tenant, name, r) && r.Some?
              ==> Latest(r.value, Family(m.Values, tenant, name))
  {
    if SentinelHarmless(Family(m.Values, tenant, name)) {
      forall r | SomeOrderGives(m, tenant, name, r) && r.Some?
        ensures Latest(r.value, Family(m.Values, tenant, name))
      {
        EveryOrderFindsLatest(m, tenant, name, r);
      }
    } else {
      var r := SomeOrderMisses(m, tenant, name);
    }
  }

  /** The table that saves of d at the version "" and at v leave. */
  function WithEmptyVersion(d: ToolDefinition, v: string): Tools {
    Save(Save(map[], d.(version := "")), d.(version := v))
  }

  // It happens: 2^63 wraps to a negative number, so the empty version tops it. Only a direct save can lead
  // there, as Register refuses empty versions.
  lemma SentinelHarms(d: ToolDefinition)
    ensures var m := WithEmptyVersion(d, SemVer.Numeral(Int64.TWO_63));
      KeyedByFields(m) && !SentinelHarmless(Family(m.Values, d.tenant, d.name))
  {
    var v := SemVer.Numeral(Int64.TWO_63);
    var e, f := d.(version := ""), d.(version := v);
    NumeralBelowEmpty(v);
    TwoVersions(d, v);
    EmptyTops({e, f}, e, f);
  }

  lemma EmptyTops(fam: set<ToolDefinition>, e: ToolDefinition, f: ToolDefinition)
    requires fam == {e, f} && e.version == "" && f.version != "" && Order(f.version, "") < 0
    ensures !SentinelHarmless(fam)
  {
    assert e in fam && f in fam;
  }

  lemma TwoVersions(d: ToolDefinition, v: string)
    requires v != ""
    ensures KeyedByFields(WithEmptyVersion(d, v))
    ensures Family(WithEmptyVersion(d, v).Values, d.tenant, d.name) == {d.(version := ""), d.(version := v)}
  {
    var e, f := d.(version := ""), d.(version := v);
    assert |KeyOf(IdentOf(e))| < |KeyOf(IdentOf(f))|;
    TwoValues(KeyOf(IdentOf(e)), e, KeyOf(IdentOf(f)), f);
  }

  lemma NumeralBelowEmpty(v: string)
    requires SemVer.CanonicalNumeral(v) && Decimal(v) == Int64.TWO_63
    ensures Order(v, "") == -1
  {
    assert Free(v, '.');
    SplitFree(v, '.');
    SplitFree("", '.');
    SemVer.AllDigitsIsLeading(v);
    FirstDifference(Components(v), Components(""), 0);
  }

  lemma TwoValues(k: string, e: ToolDefinition, l: string, f: ToolDefinition)
    requires k != l
    ensures map[k := e][l := f].Values == {e, f}
  {
    var m := map[k := e][l := f];
    assert m[k] == e && m[l] == f;
  }

  lemma LatestTies(fam: set<ToolDefinition>, d: ToolDefinition, e: ToolDefinition)
    requires Latest(d, fam) && Latest(e, fam)
    ensures Order(d.version, e.version) == 0
  {
    OrderAntisymmetric(d.version, e.version);
  }

  // Two orders may return different definitions, but only of versions that tie...
  lemma OrdersTie(m: Tools, tenant: string, name: string, r: Option<ToolDefinition>, r': Option<ToolDefinition>)
    requires SomeOrderGives(m, tenant, name, r) && SomeOrderGives(m, tenant, name, r')
    requires SentinelHarmless(Family(m.Values, tenant, name))
    ensures r.Some? <==> r'.Some?
    ensures r.Some? ==> Order(r.value.version, r'.value.version) == 0
  {
    EveryOrderFindsLatest(m, tenant, name, r);
    EveryOrderFindsLatest(m, tenant, name, r');
    if r.Some? { LatestTies(Family(m.Values, tenant, name), r.value, r'.value); }
  }

  // ...and every one of those is returned by some order, save for an empty version that is not alone.
  lemma OrdersGiveLatestExactly(m: Tools, tenant: string, name: string, d: ToolDefinition)
    requires KeyedByFields(m) && SentinelHarmless(Family(m.Values, tenant, name))
    ensures var fam := Family(m.Values, tenant, name);
      SomeOrderGives(m, tenant, name, Some(d)) <==> Latest(d, fam) && (d.version != "" || fam == {d})
  {
    var fam := Family(m.Values, tenant, name);
    if SomeOrderGives(m, tenant, name, Some(d)) {
      EveryOrderFindsLatest(m, tenant, name, Some(d));
      EmptyIsGivenAlone(m, tenant, name, d);
    }
    if Latest(d, fam) && d.version != "" {
      OrdersGiveEveryLatest(m, tenant, name, d);
    }
    if fam == {d} {
      AloneIsGiven(m, tenant, name, d);
    }
  }

  lemma AloneIsGiven(m: Tools, tenant: string, name: string, d: ToolDefinition)
    requires Family(m.Values, tenant, name) == {d}
    ensures SomeOrderGives(m, tenant, name, Some(d))
  {
    var ks := SomeEnumeration(m.Keys);
    ScanWeighs(m, ks, tenant, name);
    SeenAll(m, ks, tenant, name);
  }

  lemma EmptyIsGivenAlone(m: Tools, tenant: string, name: string, d: ToolDefinition)
    requires SomeOrderGives(m, tenant, name, Some(d)) && SentinelHarmless(Family(m.Values, tenant, name))
    ensures d.version == "" ==> Family(m.Values, tenant, name) == {d}
  {
    var fam := Family(m.Values, tenant, name);
    var ks :| Enumerates(ks, m.Keys) && Scan(m, ks, tenant, name).best == Some(d);
    ScanWeighs(m, ks, tenant, name);
    SeenAll(m, ks, tenant, name);
    if d.version == "" {
      assert EmptyOnTop(fam);
      assert forall e :: e in fam <==> e == d;
    }
  }

  // The order that starts with a definition returns it.
  lemma OrdersGiveEveryLatest(m: Tools, tenant: string, name: string, d: ToolDefinition)
    requires KeyedByFields(m) && Latest(d, Family(m.Values, tenant, name)) && d.version != ""
    ensures SomeOrderGives(m, tenant, name, Some(d))
  {
    var ks := EnumerationFrom(m.Keys, KeyOf(IdentOf(d)));
    LatestStays(m, ks, tenant, name, d);
  }

  lemma {:induction false} LatestStays(m: Tools, ks: seq<string>, tenant: string, name: string, d: ToolDefinition)
    requires (forall k :: k in ks ==> k in m) && ks != [] && m[ks[0]] == d
    requires Latest(d, Family(m.Values, tenant, name)) && d.version != ""
    ensures Scan(m, ks, tenant, name) == Candidate(Some(d), d.version)
  {
    var front := ks[..|ks| - 1];
    if front != [] {
      LatestStays(m, front, tenant, name, d);
      var e := m[ks[|ks| - 1]];
      assert OfFamily(e, tenant, name) ==> e in Family(m.Values, tenant, name);
    }
  }

  // The empty version is a minimum among versions whose components did not overflow.
  lemma EmptyVersionLeast(v: string)
    requires forall i :: 0 <= i < |Components(v)| ==> Components(v)[i] >= 0
    ensures Order("", v) <= 0
  {
    SplitFree("", '.');
    assert Components("") == [0];
  }

  // So without overflow the sentinel is harmless, and likewise without empty versions.
  lemma SentinelHarmlessWithoutOverflow(m: Tools, tenant: string, name: string)
    requires KeyedByFields(m)
    requires forall d :: d in Family(m.Values, tenant, name) ==>
      (d.version == "" || forall i :: 0 <= i < |Components(d.version)| ==> Components(d.version)[i] >= 0)
    ensures SentinelHarmless(Family(m.Values, tenant, name))
  {
    var fam := Family(m.Values, tenant, name);
    if EmptyOnTop(fam) {
      forall d | d in fam ensures d.version == "" {
        if d.version != "" {
          EmptyVersionLeast(d.version);
          OrderAntisymmetric("", d.version);
        }
      }
    }
  }

  // On core semantic versions within int64 every visiting order returns the same definition, the one
  // no other member precedes.
  lemma CoreLatestIsUnique(m: Tools, tenant: string, name: string,
                           r: Option<ToolDefinition>, r': Option<ToolDefinition>)
    requires KeyedByFields(m)
    requires forall d :: d in Family(m.Values, tenant, name) ==>
      SemVer.IsCore(d.version) && SemVer.CoreFits(d.version)
    requires SomeOrderGives(m, tenant, name, r) && SomeOrderGives(m, tenant, name, r')
    ensures r == r'
    ensures r.Some? ==> r.value in Family(m.Values, tenant, name)
    ensures r.Some? ==>
      forall d :: d in Family(m.Values, tenant, name) ==> SemVer.Precedence(d.version, r.value.version) <= 0
  {
    var fam := Family(m.Values, tenant, name);
    SplitFree("", '.');
    assert !SemVer.IsCore("");
    EveryOrderFindsLatest(m, tenant, name, r);
    EveryOrderFindsLatest(m, tenant, name, r');
    if r.Some? {
      LatestTies(fam, r.value, r'.value);
      forall d | d in fam
        ensures SemVer.Precedence(d.version, r.value.version) <= 0
      {
        SemVer.OrderIsPrecedence(d.version, r.value.version);
      }
      SemVer.OrderIsPrecedence(r.value.version, r'.value.version);
      assert IdentOf(r.value) == IdentOf(r'.value);
    }
  }

  // ----- listing -----

  ghost predicate HasAnyTag(have: seq<string>, want: seq<string>, equalFold: (string, string) -> bool) {
    exists h, w :: h in have && w in want && equalFold(h, w)
  }

  ghost predicate Matches(d: ToolDefinition, tenant: string, f: ToolFilter,
                          equalFold: (string, string) -> bool)
  {
    && d.tenant == tenant
    && (f.kind == "" || d.kind == f.kind)
    && (f.tags == [] || HasAnyTag(d.tags, f.tags, equalFold))
  }

  ghost function Matching(defs: set<ToolDefinition>, tenant: string, f: ToolFilter,
                          equalFold: (string, string) -> bool): set<ToolDefinition>
  {
    set d | d in defs && Matches(d, tenant, f, equalFold)
  }

  predicate SortedByName(s: seq<ToolDefinition>) {
    forall i, j :: 0 <= i < j < |s| ==> !Less(s[j].name, s[i].name)
  }

  /** out lists n of the matches, or all if there are fewer, sorted by name and least names first. */
  ghost predicate Listing(matches: set<ToolDefinition>, limit: int, out: seq<ToolDefinition>) {
    && Distinct(out)
    && (forall d :: d in out ==> d in matches)
    && |out| == (if 0 < limit < |matches| then limit else |matches|)
    && SortedByName(out)
    && forall d, e :: d in matches && d !in out && e in out ==> !Less(d.name, e.name)
  }

  lemma {:induction false} LeastName(s: seq<ToolDefinition>) returns (i: nat)
    requires s != []
    ensures i < |s| && forall d :: d in s ==> !Less(d.name, s[i].name)
  {
    i := |s| - 1;
    LessIrreflexive(s[i].name);
    if i > 0 {
      var j := LeastName(s[..i]);
      assert forall d :: d in s ==> d in s[..i] || d == s[i];
      LessTotal(s[j].name, s[i].name);
      if Less(s[i].name, s[j].name) {
        forall d | d in s ensures !Less(d.name, s[i].name) {
          if d in s[..i] && Less(d.name, s[i].name) { LessTransitive(d.name, s[i].name, s[j].name); }
        }
      } else {
        i := j;
      }
    }
  }

  // Truncating a sorted list of all matches gives a listing.
  lemma TruncatedIsListing(matches: set<ToolDefinition>, limit: int, all: seq<ToolDefinition>)
    requires Enumerates(all, matches) && SortedByName(all)
    ensures Listing(matches, limit, if 0 < limit < |all| then all[..limit] else all)
  {
    DistinctSize(all, matches);
  }

  // Any two listings show the same names: only equally named tools may be exchanged.
  lemma ListingNamesAgree(matches: set<ToolDefinition>, limit: int,
                          out: seq<ToolDefinition>, out': seq<ToolDefinition>, i: nat)
    requires Listing(matches, limit, out) && Listing(matches, limit, out')
    requires i < |out|
    ensures |out| == |out'| && !Less(out[i].name, out'[i].name)
  {
    if Less(out[i].name, out'[i].name) {
      var low := out[..i + 1];
      forall d | d in low ensures d in out'[..i] {
        var k :| 0 <= k <= i && out[k] == d;
        LessIrreflexive(out[i].name);
        assert !Less(out[i].name, d.name);
        LessTotal(d.name, out[i].name);
        if d.name != out[i].name { LessTransitive(d.name, out[i].name, out'[i].name); }
        assert d in matches && Less(d.name, out'[i].name);
        assert out'[i] in out';
        var l :| 0 <= l < |out'| && out'[l] == d;
        LessIrreflexive(d.name);
        assert l < i;
      }
      Pigeonhole(low, out'[..i]);
    }
  }
}
