/** The in-memory tool store. */
module Store {
  import opened Sequences
  import opened Text
  import opened Domain
  import opened ToolTable
  import Versions

  class InMemory {
    var tools: Tools
    /** Unicode case-insensitive equality, a library call of the store. */
    const equalFold: (string, string) -> bool

    ghost predicate Valid()
      reads this
    {
      KeyedByFields(tools)
    }

    constructor (equalFold: (string, string) -> bool)
      ensures Valid() && tools == map[]
      ensures this.equalFold == equalFold
    {
      this.tools := map[];
      this.equalFold := equalFold;
    }

    method SaveTool(d: ToolDefinition)
      requires Valid()
      modifies this
      ensures Valid() && tools == Save(old(tools), d)
    {
      SaveKeyed(tools, d);
      tools := tools[ToolKey(d.tenant, d.name, d.version) := d];
    }

    method GetTool(tenant: string, name: string, version: string) returns (r: Option<ToolDefinition>)
      requires Valid()
      ensures var id := Ident(tenant, name, version);
        r == (if id in Abstract(tools) then Some(Abstract(tools)[id]) else None) <==> !Clash(tools, id)
      ensures r.Some? ==> r.value in tools.Values && KeyOf(IdentOf(r.value)) == ToolKey(tenant, name, version)
      ensures r.None? ==> Ident(tenant, name, version) !in Abstract(tools)
    {
      var key := ToolKey(tenant, name, version);
      r := if key in tools then Some(tools[key]) else None;
      AbstractLookup(tools, Ident(tenant, name, version));
      GetRefines(tools, Ident(tenant, name, version));
    }

    /** Visits the table in an arbitrary order and keeps the greatest version of the family. */
    method GetLatestTool(tenant: string, name: string) returns (r: Option<ToolDefinition>)
      ensures SomeOrderGives(tools, tenant, name, r)
      ensures r.None? <==> Family(tools.Values, tenant, name) == {}
      ensures r.Some? ==> r.value in Family(tools.Values, tenant, name)
      ensures r.Some? && SentinelHarmless(Family(tools.Values, tenant, name)) ==>
        Latest(r.value, Family(tools.Values, tenant, name))
    {
      r := None;
      var bestV := "";
      var todo := tools.Keys;
      ghost var ks: seq<string> := [];
      while todo != {}
        invariant todo <= tools.Keys && Enumerates(ks, tools.Keys - todo)
        invariant Scan(tools, ks, tenant, name) == Candidate(r, bestV)
      {
        var k :| k in todo;
        var d := tools[k];
        EnumeratesExtend(ks, tools.Keys - todo, k);
        assert tools.Keys - todo + {k} == tools.Keys - (todo - {k});
        ScanSnoc(tools, ks, k, tenant, name);
        ks := ks + [k];
        todo := todo - {k};
        if d.tenant != tenant || d.name != name {
          continue;
        }
        var newer := bestV == "";
        if !newer {
          var c := Versions.CompareVersion(d.version, bestV);
          newer := c > 0;
        }
        if newer {
          r, bestV := Some(d), d.version;
        }
      }
      assert Scan(tools, ks, tenant, name).best == r;
      EveryOrderFindsLatest(tools, tenant, name, r);
    }

    method DeleteTool(tenant: string, name: string)
      requires Valid()
      modifies this
      ensures Valid() && tools == WithoutFamily(old(tools), tenant, name)
    {
      ghost var before := tools;
      var todo := tools.Keys;
      while todo != {}
        invariant todo <= before.Keys
        invariant tools == map k | k in before && (k in todo || !OfFamily(before[k], tenant, name)) :: before[k]
      {
        var k :| k in todo;
        var d := tools[k];
        todo := todo - {k};
        if d.tenant == tenant && d.name == name {
          tools := tools - {k};
        }
      }
    }

    /** The matches of the filter, sorted by name and cut at the limit. */
    method ListTools(tenant: string, f: ToolFilter) returns (out: seq<ToolDefinition>)
      requires Valid()
      ensures Listing(Matching(tools.Values, tenant, f, equalFold), f.limit, out)
    {
      out := [];
      var todo := tools.Keys;
      ghost var seen: set<ToolDefinition> := {};
      while todo != {}
        invariant todo <= tools.Keys
        invariant forall k :: k in tools ==> (tools[k] in seen <==> k !in todo)
        invariant seen <= tools.Values
        invariant Enumerates(out, Matching(seen, tenant, f, equalFold))
      {
        var k :| k in todo;
        var d := tools[k];
        todo := todo - {k};
        ghost var before := Matching(seen, tenant, f, equalFold);
        seen := seen + {d};
        assert Matching(seen, tenant, f, equalFold)
            == before + if Matches(d, tenant, f, equalFold) then {d} else {};
        if d.tenant != tenant {
          continue;
        }
        if f.kind != "" && d.kind != f.kind {
          continue;
        }
        if |f.tags| > 0 {
          var tagged := AnyTag(d.tags, f.tags, equalFold);
          if !tagged {
            continue;
          }
        }
        EnumeratesExtend(out, before, d);
        out := out + [d];
      }
      assert seen == tools.Values;
      var sorted := SortByName(out);
      DistinctByCount(out, sorted);
      TruncatedIsListing(Matching(tools.Values, tenant, f, equalFold), f.limit, sorted);
      out := sorted;
      if f.limit > 0 && |out| > f.limit {
        out := out[..f.limit];
      }
    }
  }

  method AnyTag(have: seq<string>, want: seq<string>, equalFold: (string, string) -> bool) returns (any: bool)
    ensures any <==> HasAnyTag(have, want, equalFold)
  {
    for i := 0 to |want|
      invariant forall h, w :: h in have && w in want[..i] ==> !equalFold(h, w)
    {
      for j := 0 to |have|
        invariant forall h :: h in have[..j] ==> !equalFold(h, want[i])
      {
        if equalFold(have[j], want[i]) {
          return true;
        }
      }
    }
    return false;
  }

  lemma RemovedAt(s: seq<ToolDefinition>, i: nat, rest: seq<ToolDefinition>)
    requires i < |s| && rest == s[..i] + s[i + 1..]
    ensures multiset(s) == multiset(rest) + multiset{s[i]}
    ensures forall d :: d in rest ==> d in s
    ensures |rest| < |s|
  {
    assert s == s[..i] + [s[i]] + s[i + 1..];
  }

  /** A library sort without stability: any permutation in order of name may come out. */
  method SortByName(s: seq<ToolDefinition>) returns (r: seq<ToolDefinition>)
    ensures multiset(r) == multiset(s) && SortedByName(r)
  {
    r := [];
    var rest := s;
    while rest != []
      invariant multiset(r) + multiset(rest) == multiset(s)
      invariant SortedByName(r)
      invariant forall d, e :: d in r && e in rest ==> !Less(e.name, d.name)
      decreases |rest|
    {
      ghost var least := LeastName(rest);
      var i :| 0 <= i < |rest| && forall d :: d in rest ==> !Less(d.name, rest[i].name);
      var next := rest[..i] + rest[i + 1..];
      RemovedAt(rest, i, next);
      r, rest := r + [rest[i]], next;
    }
  }
}
