/** The registry's value types: tools, instances, filters, metrics and decoded JSON. */
module Domain {
  import opened Text

  /** A decoded `any`. Number is a finite float64; GoInt and GoInt64 are the int and int64 a Go
      caller may pass in place of a decoded number. */
  datatype Value =
    | Null
    | Bool(b: bool)
    | Number(x: real)
    | GoInt(i: int)
    | GoInt64(l: int)
    | Str(s: string)
    | Arr(elems: seq<Value>)
    | Obj(fields: map<string, Value>)

  type Object = map<string, Value>

  datatype ToolAuth = ToolAuth(kind: string, config: Object)

  datatype ToolDefinition = ToolDefinition(
    name: string, version: string, kind: string, tenant: string,
    inputSchema: Object, outputSchema: Object,
    transport: string, endpoint: string, auth: ToolAuth,
    rbac: seq<string>, tags: seq<string>)

  datatype ToolInstance = ToolInstance(endpoint: string, healthy: bool, weight: int)

  datatype ResolvedTool = ResolvedTool(def: ToolDefinition, instances: seq<ToolInstance>)

  /** kind "" and tags [] do not filter; a limit <= 0 does not truncate. */
  datatype ToolFilter = ToolFilter(kind: string, tags: seq<string>, limit: int)

  datatype CallMetric = CallMetric(tenant: string, tool: string, latencyMs: int, success: bool)

  /** The three parts that identify a tool registration. */
  datatype Ident = Ident(tenant: string, name: string, version: string)

  function IdentOf(d: ToolDefinition): Ident {
    Ident(d.tenant, d.name, d.version)
  }

  /** The composite key tenant/name/version. */
  function ToolKey(tenant: string, name: string, version: string): string {
    tenant + "/" + name + "/" + version
  }

  function KeyOf(id: Ident): string {
    ToolKey(id.tenant, id.name, id.version)
  }

  /** Tenant and name contain no separator; the version may. */
  predicate SlashFree(id: Ident) {
    Free(id.tenant, '/') && Free(id.name, '/')
  }

  lemma ToolKeyShape(tenant: string, name: string, version: string)
    ensures ToolKey(tenant, name, version) == tenant + ['/'] + (name + ['/'] + version)
  {
  }

  // The key is injective in all three parts when tenants and names are slash-free.
  lemma KeyInjective(a: Ident, b: Ident)
    requires SlashFree(a) && SlashFree(b)
    requires KeyOf(a) == KeyOf(b)
    ensures a == b
  {
    ToolKeyShape(a.tenant, a.name, a.version);
    ToolKeyShape(b.tenant, b.name, b.version);
    CutUnique(a.tenant, a.name + ['/'] + a.version, b.tenant, b.name + ['/'] + b.version, '/');
    CutUnique(a.name, a.version, b.name, b.version, '/');
  }

  // Slash-free tenants alone keep the keys of two tenants apart.
  lemma KeysOfTenantsDisjoint(a: Ident, b: Ident)
    requires Free(a.tenant, '/') && Free(b.tenant, '/')
    requires KeyOf(a) == KeyOf(b)
    ensures a.tenant == b.tenant
  {
    ToolKeyShape(a.tenant, a.name, a.version);
    ToolKeyShape(b.tenant, b.name, b.version);
    CutUnique(a.tenant, a.name + ['/'] + a.version, b.tenant, b.name + ['/'] + b.version, '/');
  }

  // With a slash in a name the same key can stand for two registrations of one tenant.
  lemma KeyAmbiguousWithSlash()
    ensures KeyOf(Ident("t", "a/b", "1")) == KeyOf(Ident("t", "a", "b/1"))
  {
    assert KeyOf(Ident("t", "a/b", "1")) == "t/a/b/1";
    assert KeyOf(Ident("t", "a", "b/1")) == "t/a/b/1";
  }

  lemma PartsOfKey(id: Ident)
    ensures Split(KeyOf(id), '/') == Split(id.tenant, '/') + Split(id.name, '/') + Split(id.version, '/')
  {
    var rest := id.name + ['/'] + id.version;
    ToolKeyShape(id.tenant, id.name, id.version);
    SplitConcat(id.tenant, rest, '/');
    SplitConcat(id.name, id.version, '/');
  }

  // Splitting a key at its slashes gives back tenant and name exactly when neither holds a slash.
  lemma SplitOfKey(id: Ident)
    ensures |Split(KeyOf(id), '/')| >= 3
    ensures Split(KeyOf(id), '/')[..2] == [id.tenant, id.name] <==> SlashFree(id)
    ensures SlashFree(id) ==> Split(KeyOf(id), '/') == [id.tenant, id.name] + Split(id.version, '/')
  {
    var parts := Split(KeyOf(id), '/');
    PartsOfKey(id);
    if SlashFree(id) {
      SplitFree(id.tenant, '/');
      SplitFree(id.name, '/');
    }
    JoinOfSplit(KeyOf(id), '/');
    assert Free(parts[0], '/') && Free(parts[1], '/') by { assert parts[0] in parts && parts[1] in parts; }
    assert parts[..2] == [parts[0], parts[1]];
  }

  /** No other identity has the key of id. */
  ghost predicate OwnsKey(id: Ident) {
    forall other :: KeyOf(other) == KeyOf(id) ==> other == id
  }

  // An identity owns its key exactly when none of its parts holds a slash, the version included.
  lemma OwnsKeyExactly(id: Ident)
    ensures OwnsKey(id) <==> SlashFree(id) && Free(id.version, '/')
  {
    if SlashFree(id) && Free(id.version, '/') {
      forall other | KeyOf(other) == KeyOf(id) ensures other == id {
        ThreePartsAreOwn(id, other);
      }
    } else {
      var other := SharesKey(id);
      assert KeyOf(other) == KeyOf(id) && other != id;
    }
  }

  lemma ThreePartsAreOwn(id: Ident, other: Ident)
    requires SlashFree(id) && Free(id.version, '/') && KeyOf(other) == KeyOf(id)
    ensures other == id
  {
    PartsOfKey(id);
    PartsOfKey(other);
    SplitFree(id.tenant, '/');
    SplitFree(id.name, '/');
    SplitFree(id.version, '/');
    JoinOfSplit(other.tenant, '/');
    JoinOfSplit(other.name, '/');
    JoinOfSplit(other.version, '/');
    var t, n, v := Split(other.tenant, '/'), Split(other.name, '/'), Split(other.version, '/');
    assert t + n + v == [id.tenant, id.name, id.version];
    assert |t| == |n| == |v| == 1;
    assert (t + n + v)[0] == t[0] && (t + n + v)[1] == n[0] && (t + n + v)[2] == v[0];
  }

  // Text around a slash may move over to the part beside it.
  lemma SharesKey(id: Ident) returns (other: Ident)
    requires !(SlashFree(id) && Free(id.version, '/'))
    ensures KeyOf(other) == KeyOf(id) && other != id
  {
    if '/' in id.tenant {
      var k := FirstSlash(id.tenant);
      other := Ident(id.tenant[..k], id.tenant[k + 1..] + "/" + id.name, id.version);
      assert id.tenant == id.tenant[..k] + "/" + id.tenant[k + 1..];
    } else if '/' in id.name {
      var k := FirstSlash(id.name);
      other := Ident(id.tenant, id.name[..k], id.name[k + 1..] + "/" + id.version);
      assert id.name == id.name[..k] + "/" + id.name[k + 1..];
    } else {
      var k := FirstSlash(id.version);
      other := Ident(id.tenant, id.name + "/" + id.version[..k], id.version[k + 1..]);
      assert id.version == id.version[..k] + "/" + id.version[k + 1..];
    }
  }

  lemma FirstSlash(s: string) returns (k: nat)
    requires '/' in s
    ensures k < |s| && s[k] == '/'
  {
    k :| k < |s| && s[k] == '/';
  }
}
