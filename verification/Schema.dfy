/** The structural schema validator. */
module Schema {
  import opened Sequences
  import opened Domain
  import Int64

  /** Panicked: comparing two arrays or two objects with == aborts the call. */
  datatype Verdict = Accepted | Rejected | Panicked

  // ----- reading keywords -----

  function TypeOf(p: Object): string {
    if "type" in p && p["type"].Str? then p["type"].s else ""
  }

  function RequiredOf(s: Object): seq<Value> {
    if "required" in s && s["required"].Arr? then s["required"].elems else []
  }

  function PropertiesOf(s: Object): (props: Object)
    ensures "properties" in s && s["properties"].Obj? ==> props == s["properties"].fields
  {
    if "properties" in s && s["properties"].Obj? then s["properties"].fields else map[]
  }

  /** A property whose schema is an object and which the data holds. */
  predicate Checked(s: Object, data: Object, name: string) {
    name in PropertiesOf(s) && name in data && PropertiesOf(s)[name].Obj?
  }

  predicate Missing(s: Object, data: Object) {
    exists r :: r in RequiredOf(s) && r.Str? && r.s != "" && r.s !in data
  }

  // ----- the verdict, declaratively -----

  class Validator {
    /** int64(x) for a float64 x. Go fixes the value inside the range of int64 only. */
    const toInt64: real -> int

    ghost predicate Valid() {
      forall x: real :: -Int64.TWO_63 as real <= x < Int64.TWO_63 as real ==> toInt64(x) == Truncate(x)
    }

    constructor (toInt64: real -> int)
      requires forall x: real :: -Int64.TWO_63 as real <= x < Int64.TWO_63 as real ==> toInt64(x) == Truncate(x)
      ensures Valid() && this.toInt64 == toInt64
    {
      this.toInt64 := toInt64;
    }

    /** An unknown type name accepts everything. */
    predicate TypeAccepts(typ: string, val: Value) {
      match typ
      case "string" => val.Str?
      case "number" => val.Number? || val.GoInt? || val.GoInt64?
      case "integer" => val.GoInt? || val.GoInt64? || (val.Number? && val.x == toInt64(val.x) as real)
      case "boolean" => val.Bool?
      case "array" => val.Arr?
      case "object" => val.Obj?
      case "null" => val.Null?
      case _ => true
    }

    ghost predicate PropertyAccepts(p: Object, val: Value) {
      && ("type" in p && p["type"].Str? ==> TypeAccepts(p["type"].s, val))
      && ("enum" in p && p["enum"].Arr? ==> EnumAccepts(p["enum"].elems, val))
    }

    /** What the recursion checks: below an object property it reads the properties map itself as the
        schema, so only entries of it called "required" or "properties" have an effect. */
    ghost predicate NodeAccepts(s: Object, data: Object)
      decreases Obj(data), 1
    {
      && !Missing(s, data)
      && forall name :: Checked(s, data, name) ==> ValueAccepts(PropertiesOf(s)[name].fields, data[name])
    }

    ghost predicate ValueAccepts(p: Object, val: Value)
      decreases val, 2
    {
      && PropertyAccepts(p, val)
      && (Descends(p, val) ==> NodeAccepts(p["properties"].fields, val.fields))
    }

    predicate Descends(p: Object, val: Value) {
      TypeOf(p) == "object" && "properties" in p && p["properties"].Obj? && val.Obj?
    }

    /** The verdict of a property's own type and enum. */
    function Own(p: Object, val: Value): Verdict {
      if "type" in p && p["type"].Str? && !TypeAccepts(p["type"].s, val) then Rejected
      else if "enum" in p && p["enum"].Arr? then EnumVerdict(p["enum"].elems, val)
      else Accepted
    }

    /** The verdicts that some order of visiting the properties reaches: a missing name rejects, all checked
        properties have to accept, and else any of them that does not may be the first to be visited. */
    ghost predicate NodeMay(s: Object, data: Object, v: Verdict)
      decreases Obj(data), 1
    {
      if Missing(s, data) then v == Rejected
      else if v.Accepted? then
        forall name :: Checked(s, data, name) ==> ValueMay(PropertiesOf(s)[name].fields, data[name], Accepted)
      else
        exists name :: Checked(s, data, name) && ValueMay(PropertiesOf(s)[name].fields, data[name], v)
    }

    ghost predicate ValueMay(p: Object, val: Value, v: Verdict)
      decreases val, 2
    {
      if !Own(p, val).Accepted? then v == Own(p, val)
      else if Descends(p, val) then NodeMay(p["properties"].fields, val.fields, v)
      else v == Accepted
    }

    // ----- the verdict, order by order -----

    /** Checking the properties ks in this order ends with v; each nested object has its own order. */
    ghost predicate VisitYields(props: Object, ks: seq<string>, data: Object, v: Verdict)
      decreases Obj(data), 0, |ks|
    {
      if ks == [] then v == Accepted
      else if ks[0] !in props || !props[ks[0]].Obj? || ks[0] !in data then VisitYields(props, ks[1..], data, v)
      else
        exists w :: ValueYields(props[ks[0]].fields, data[ks[0]], w)
          && if w.Accepted? then VisitYields(props, ks[1..], data, v) else v == w
    }

    ghost predicate NodeYields(s: Object, data: Object, v: Verdict)
      decreases Obj(data), 1
    {
      if Missing(s, data) then v == Rejected
      else exists ks :: Enumerates(ks, PropertiesOf(s).Keys) && VisitYields(PropertiesOf(s), ks, data, v)
    }

    ghost predicate ValueYields(p: Object, val: Value, v: Verdict)
      decreases val, 2
    {
      if !Own(p, val).Accepted? then v == Own(p, val)
      else if Descends(p, val) then NodeYields(p["properties"].fields, val.fields, v)
      else v == Accepted
    }

    // The verdicts of all orders are exactly those that may occur.
    lemma {:induction false} NodeYieldsExactly(s: Object, data: Object, v: Verdict)
      ensures NodeYields(s, data, v) <==> NodeMay(s, data, v)
      decreases Obj(data), 1
    {
      var props := PropertiesOf(s);
      forall name, w | Checked(s, data, name)
        ensures ValueYields(props[name].fields, data[name], w) <==> ValueMay(props[name].fields, data[name], w)
      {
        ValueYieldsExactly(props[name].fields, data[name], w);
      }
      if !Missing(s, data) && NodeYields(s, data, v) {
        var ks :| Enumerates(ks, props.Keys) && VisitYields(props, ks, data, v);
        VisitSound(s, ks, data, v);
      }
      if !Missing(s, data) && NodeMay(s, data, v) {
        var ks := SomeOrder(s, data, v);
      }
    }

    lemma {:induction false} ValueYieldsExactly(p: Object, val: Value, v: Verdict)
      ensures ValueYields(p, val, v) <==> ValueMay(p, val, v)
      decreases val, 2
    {
      if Descends(p, val) { NodeYieldsExactly(p["properties"].fields, val.fields, v); }
    }

    lemma {:induction false} VisitSound(s: Object, ks: seq<string>, data: Object, v: Verdict)
      requires VisitYields(PropertiesOf(s), ks, data, v)
      ensures v.Accepted? ==> forall name :: name in ks && Checked(s, data, name) ==>
        ValueYields(PropertiesOf(s)[name].fields, data[name], Accepted)
      ensures !v.Accepted? ==>
        exists name :: Checked(s, data, name) && ValueYields(PropertiesOf(s)[name].fields, data[name], v)
      decreases |ks|
    {
      if ks != [] {
        if Checked(s, data, ks[0]) {
          var w :| ValueYields(PropertiesOf(s)[ks[0]].fields, data[ks[0]], w)
            && if w.Accepted? then VisitYields(PropertiesOf(s), ks[1..], data, v) else v == w;
          if w.Accepted? { VisitSound(s, ks[1..], data, v); }
        } else {
          VisitSound(s, ks[1..], data, v);
        }
        assert ks == [ks[0]] + ks[1..];
      }
    }

    lemma {:induction false} VisitAccepts(s: Object, ks: seq<string>, data: Object)
      requires forall name :: Checked(s, data, name) ==>
        ValueYields(PropertiesOf(s)[name].fields, data[name], Accepted)
      ensures VisitYields(PropertiesOf(s), ks, data, Accepted)
      decreases |ks|
    {
      if ks != [] {
        VisitAccepts(s, ks[1..], data);
        assert !(ks[0] !in PropertiesOf(s) || !PropertiesOf(s)[ks[0]].Obj? || ks[0] !in data)
          <==> Checked(s, data, ks[0]);
      }
    }

    // A property that does not accept decides when it is visited first.
    lemma SomeOrder(s: Object, data: Object, v: Verdict) returns (ks: seq<string>)
      requires if v.Accepted?
        then forall name :: Checked(s, data, name) ==>
          ValueYields(PropertiesOf(s)[name].fields, data[name], Accepted)
        else exists name :: Checked(s, data, name) && ValueYields(PropertiesOf(s)[name].fields, data[name], v)
      ensures Enumerates(ks, PropertiesOf(s).Keys) && VisitYields(PropertiesOf(s), ks, data, v)
    {
      var names := PropertiesOf(s).Keys;
      if v.Accepted? {
        ks := SomeEnumeration(names);
        VisitAccepts(s, ks, data);
      } else {
        var name :| Checked(s, data, name) && ValueYields(PropertiesOf(s)[name].fields, data[name], v);
        ks := EnumerationFrom(names, name);
        assert VisitYields(PropertiesOf(s), ks, data, v);
      }
    }

    // Some order accepts exactly when all do, and then none ends otherwise.
    lemma {:induction false} MayAccept(s: Object, data: Object, v: Verdict)
      requires NodeMay(s, data, v)
      ensures v.Accepted? <==> NodeAccepts(s, data)
      decreases Obj(data), 1
    {
      forall name, w | Checked(s, data, name) && ValueMay(PropertiesOf(s)[name].fields, data[name], w)
        ensures w.Accepted? <==> ValueAccepts(PropertiesOf(s)[name].fields, data[name])
      {
        ValueMayAccept(PropertiesOf(s)[name].fields, data[name], w);
      }
    }

    lemma {:induction false} ValueMayAccept(p: Object, val: Value, v: Verdict)
      requires ValueMay(p, val, v)
      ensures v.Accepted? <==> ValueAccepts(p, val)
      decreases val, 2
    {
      if Own(p, val).Accepted? && Descends(p, val) { MayAccept(p["properties"].fields, val.fields, v); }
    }

    // ----- panics -----

    /** Some enum within reach lists an array or object that the type beside it admits. */
    ghost predicate NodeCanPanic(s: Object)
      decreases Obj(s), 0
    {
      "properties" in s && s["properties"].Obj? &&
        var props := s["properties"].fields;
        exists name :: name in props && props[name].Obj? && ValueCanPanic(props[name].fields)
    }

    /** An enum also keeps the check from going on with an object. */
    ghost predicate ValueCanPanic(p: Object)
      decreases Obj(p), 1
    {
      if "enum" in p && p["enum"].Arr?
      then exists e :: e in p["enum"].elems && !Scalar(e) && TypeAccepts(TypeOf(p), e)
      else TypeOf(p) == "object" && "properties" in p && p["properties"].Obj? && NodeCanPanic(p["properties"].fields)
    }

    // A schema makes validation panic on some input and in some order exactly when such an enum exists.
    lemma PanicsExactly(s: Object)
      ensures (exists data :: NodeMay(s, data, Panicked)) <==> NodeCanPanic(s)
    {
      if NodeCanPanic(s) {
        var data := PanicInput(s);
        assert NodeMay(s, data, Panicked);
      } else {
        forall data ensures !NodeMay(s, data, Panicked) {
          if NodeMay(s, data, Panicked) { PanicNeedsEnum(s, data); }
        }
      }
    }

    lemma {:induction false} PanicNeedsEnum(s: Object, data: Object)
      requires NodeMay(s, data, Panicked)
      ensures NodeCanPanic(s)
      decreases Obj(data), 1
    {
      var name :| Checked(s, data, name) && ValueMay(PropertiesOf(s)[name].fields, data[name], Panicked);
      ValuePanicNeedsEnum(PropertiesOf(s)[name].fields, data[name]);
    }

    lemma {:induction false} ValuePanicNeedsEnum(p: Object, val: Value)
      requires ValueMay(p, val, Panicked)
      ensures ValueCanPanic(p)
      decreases val, 2
    {
      if Own(p, val).Accepted? {
        PanicNeedsEnum(p["properties"].fields, val.fields);
      } else {
        var e :| e in p["enum"].elems && ComparisonPanics(e, val);
        assert TypeAccepts(TypeOf(p), val) && TypeAccepts(TypeOf(p), e);
      }
    }

    lemma {:induction false} PanicInput(s: Object) returns (data: Object)
      requires NodeCanPanic(s)
      ensures NodeMay(s, data, Panicked)
      decreases Obj(s), 0
    {
      var props := PropertiesOf(s);
      var name :| name in props && props[name].Obj? && ValueCanPanic(props[name].fields);
      var val := PanicValue(props[name].fields);
      data := Required(s)[name := val];
      assert Checked(s, data, name);
    }

    lemma {:induction false} PanicValue(p: Object) returns (val: Value)
      requires ValueCanPanic(p)
      ensures ValueMay(p, val, Panicked)
      decreases Obj(p), 1
    {
      if "enum" in p && p["enum"].Arr? {
        val :| val in p["enum"].elems && !Scalar(val) && TypeAccepts(TypeOf(p), val);
        assert ComparisonPanics(val, val);
      } else {
        var data := PanicInput(p["properties"].fields);
        val := Obj(data);
      }
    }

    /** An object that has every required member. */
    ghost function Required(s: Object): Object {
      map r | r in RequiredOf(s) && r.Str? :: r.s := Null
    }

    // An enum that lists an array panics on that array, and beside a property that rejects the order decides.
    lemma PanicHappens(one: Value, v: Verdict)
      requires one.Arr?
      ensures NodeMay(map["properties" := Obj(map["a" := Lists(one)])], map["a" := one], v) <==> v == Panicked
      ensures NodeMay(map["properties" := Obj(map["a" := Lists(one), "b" := IsText()])],
                      map["a" := one, "b" := Null], v)
         <==> v == Panicked || v == Rejected
    {
      var s: Object := map["properties" := Obj(map["a" := Lists(one)])];
      var s': Object := map["properties" := Obj(map["a" := Lists(one), "b" := IsText()])];
      assert one in Lists(one).fields["enum"].elems && ComparisonPanics(one, one);
      assert Own(Lists(one).fields, one) == Panicked && Own(IsText().fields, Null) == Rejected;
      assert Checked(s, map["a" := one], "a");
      assert Checked(s', map["a" := one, "b" := Null], "a") && Checked(s', map["a" := one, "b" := Null], "b");
    }

    // ----- the algorithm -----

    method CheckType(typ: string, val: Value) returns (v: Verdict)
      ensures v == if TypeAccepts(typ, val) then Accepted else Rejected
    {
      v := Accepted;
      match typ {
        case "string" =>
          if !val.Str? { v := Rejected; }
        case "number" =>
          match val {
            case Number(_) | GoInt(_) | GoInt64(_) =>
            case _ => v := Rejected;
          }
        case "integer" =>
          match val {
            case Number(x) =>
              if x != toInt64(x) as real { v := Rejected; }
            case GoInt(_) | GoInt64(_) =>
            case _ => v := Rejected;
          }
        case "boolean" =>
          if !val.Bool? { v := Rejected; }
        case "array" =>
          if !val.Arr? { v := Rejected; }
        case "object" =>
          if !val.Obj? { v := Rejected; }
        case "null" =>
          if !val.Null? { v := Rejected; }
        case _ =>
      }
    }

    /** Visits the properties in an arbitrary order; the verdict Accepted does not depend on it. */
    method ValidateNode(s: Object, data: Object) returns (v: Verdict)
      ensures NodeMay(s, data, v) && (v.Accepted? <==> NodeAccepts(s, data))
      decreases Obj(data), 1
    {
      var required := RequiredOf(s);
      for i := 0 to |required|
        invariant forall j :: 0 <= j < i && required[j].Str? && required[j].s != "" ==> required[j].s in data
      {
        var key := if required[i].Str? then required[i].s else "";
        if key == "" {
          continue;
        }
        if key !in data {
          return Rejected;
        }
      }
      var props := PropertiesOf(s);
      var todo := props.Keys;
      while todo != {}
        invariant todo <= props.Keys
        invariant forall name :: Checked(s, data, name) && name !in todo ==>
          ValueMay(props[name].fields, data[name], Accepted)
      {
        var name :| name in todo;
        todo := todo - {name};
        if !props[name].Obj? || name !in data {
          continue;
        }
        v := ValidateValue(props[name].fields, data[name]);
        if !v.Accepted? {
          MayAccept(s, data, v);
          return;
        }
      }
      MayAccept(s, data, Accepted);
      return Accepted;
    }

    method ValidateValue(p: Object, val: Value) returns (v: Verdict)
      ensures ValueMay(p, val, v) && (v.Accepted? <==> ValueAccepts(p, val))
      decreases val, 2
    {
      if "type" in p && p["type"].Str? {
        v := CheckType(p["type"].s, val);
        if !v.Accepted? {
          return;
        }
      }
      if "enum" in p && p["enum"].Arr? {
        v := Search(p["enum"].elems, val);
        if !v.Accepted? {
          return;
        }
      }
      if TypeOf(p) == "object" && "properties" in p && p["properties"].Obj? && val.Obj? {
        v := ValidateNode(p["properties"].fields, val.fields);
        return;
      }
      return Accepted;
    }

    method Validate(schema: Object, data: Object) returns (v: Verdict)
      ensures NodeMay(schema, data, v) && (v.Accepted? <==> NodeAccepts(schema, data))
      ensures !NodeCanPanic(schema) ==> !v.Panicked?
    {
      if |schema| == 0 {
        return Accepted;
      }
      v := ValidateNode(schema, data);
      if v.Panicked? { PanicNeedsEnum(schema, data); }
    }

    // ----- what the verdict depends on -----

    /** The data keys the schema names. */
    ghost function Named(s: Object): set<string> {
      PropertiesOf(s).Keys + set r | r in RequiredOf(s) && r.Str? :: r.s
    }

    // Keys the schema does not name make no difference.
    lemma OnlyNamedKeysMatter(s: Object, data: Object, data': Object)
      requires forall k :: k in Named(s) ==> (k in data <==> k in data') && (k in data ==> data[k] == data'[k])
      ensures NodeAccepts(s, data) == NodeAccepts(s, data')
    {
      forall r | r in RequiredOf(s) && r.Str? ensures r.s in data <==> r.s in data' {
        assert r.s in Named(s);
      }
      forall name | name in PropertiesOf(s) ensures name in data <==> name in data' {
        assert name in Named(s);
      }
    }

    // ----- well-formed schemas -----

    // A properties map, read as a schema, rejects nothing: its entries are schemas, so none of them is
    // a list of required names, and a property called "properties" only leads to another such map.
    lemma PropertiesMapAcceptsAll(props: Object, data: Object)
      requires PropertiesWellFormed(props)
      ensures NodeAccepts(props, data)
    {
      forall name | name in PropertiesOf(props) && name in data && PropertiesOf(props)[name].Obj?
        ensures ValueAccepts(PropertiesOf(props)[name].fields, data[name])
      {
        assert name == "properties";
        PropertiesStayWellFormed(PropertiesOf(props));
      }
    }

    /** The check of the top-level object alone: required names, and each property's type and enum. */
    ghost predicate DepthOne(s: Object, data: Object) {
      && !Missing(s, data)
      && forall name :: Checked(s, data, name) ==> PropertyAccepts(PropertiesOf(s)[name].fields, data[name])
    }

    lemma PropertiesStayWellFormed(s: Object)
      requires WellFormed(s)
      ensures PropertiesWellFormed(PropertiesOf(s))
    {
    }

    lemma ValueVerdict(p: Object, val: Value)
      requires WellFormed(p)
      ensures ValueAccepts(p, val) <==> PropertyAccepts(p, val)
    {
      PropertiesStayWellFormed(p);
      if "properties" in p && p["properties"].Obj? && val.Obj? {
        PropertiesMapAcceptsAll(p["properties"].fields, val.fields);
      }
    }

    // On well-formed schemas the verdict is the depth-one check.
    lemma VerdictIsDepthOne(s: Object, data: Object)
      requires WellFormed(s)
      ensures NodeAccepts(s, data) <==> DepthOne(s, data)
    {
      forall name | Checked(s, data, name)
        ensures ValueAccepts(PropertiesOf(s)[name].fields, data[name])
           <==> PropertyAccepts(PropertiesOf(s)[name].fields, data[name])
      {
        PropertiesStayWellFormed(s);
        ValueVerdict(PropertiesOf(s)[name].fields, data[name]);
      }
    }

    // The same on the keywords alone: on decoded values of well-formed schemas the verdict is that every name in
    // "required" is present, and every value described in "properties" has its "type" and is a scalar in its "enum".
    lemma VerdictOnKeywords(s: Object, data: Object)
      requires Valid() && WellFormed(s) && forall k :: k in data ==> DecodedNumber(data[k])
      ensures NodeAccepts(s, data) <==>
        && ("required" in s && s["required"].Arr? ==>
              forall r: string :: Str(r) in s["required"].elems && r != "" ==> r in data)
        && ("properties" in s && s["properties"].Obj? ==>
              var props := s["properties"].fields;
              forall name :: name in props && name in data && props[name].Obj? ==>
                var p, val := props[name].fields, data[name];
                && ("type" in p && p["type"].Str? ==> HasType(p["type"].s, val) || p["type"].s !in TYPE_NAMES)
                && ("enum" in p && p["enum"].Arr? ==> !val.Arr? && !val.Obj? && val in p["enum"].elems))
    {
      VerdictIsDepthOne(s, data);
      MissingOnKeywords(s, data);
      forall name | Checked(s, data, name)
        ensures var p, val := PropertiesOf(s)[name].fields, data[name];
          "type" in p && p["type"].Str? ==>
            (TypeAccepts(p["type"].s, val) <==> HasType(p["type"].s, val) || p["type"].s !in TYPE_NAMES)
      {
        var p := PropertiesOf(s)[name].fields;
        if "type" in p && p["type"].Str? { TypeCheckIsHasType(p["type"].s, data[name]); }
      }
    }

    lemma MissingOnKeywords(s: Object, data: Object)
      ensures Missing(s, data) <==>
        && "required" in s && s["required"].Arr?
        && exists r: string :: Str(r) in s["required"].elems && r != "" && r !in data
    {
      if "required" in s && s["required"].Arr? {
        if v :| v in s["required"].elems && v.Str? && v.s != "" && v.s !in data {
          assert Str(v.s) in s["required"].elems;
        }
      }
    }

    // On any schema a name in "required" that is absent rejects, whatever else the schema says.
    lemma RequiredRejects(s: Object, data: Object, r: string, v: Verdict)
      requires "required" in s && s["required"].Arr? && Str(r) in s["required"].elems && r != "" && r !in data
      ensures NodeMay(s, data, v) <==> v == Rejected
    {
      MissingOnKeywords(s, data);
    }

    // No conforming input is rejected.
    lemma ConformingIsAccepted(s: Object, data: Object)
      requires Valid() && WellFormed(s) && DecodedEnums(s)
      requires forall k :: k in data ==> DecodedNumber(data[k])
      requires Conforms(s, Obj(data))
      ensures NodeAccepts(s, data)
    {
      forall name | Checked(s, data, name)
        ensures PropertyAccepts(PropertiesOf(s)[name].fields, data[name])
      {
        var p, val := PropertiesOf(s)[name].fields, data[name];
        PropertiesStayWellFormed(s);
        assert Conforms(p, val);
        if "type" in p && p["type"].Str? { TypeCheckIsHasType(p["type"].s, val); }
      }
      VerdictIsDepthOne(s, data);
    }

    // On decoded values the type check is that of JSON Schema for every type name it knows.
    lemma TypeCheckIsHasType(typ: string, val: Value)
      requires Valid() && DecodedNumber(val)
      ensures TypeAccepts(typ, val) <==> HasType(typ, val) || typ !in TYPE_NAMES
    {
      if val.Number? {
        IntegralCheck(val.x);
      }
    }

    lemma IntegralCheck(x: real)
      requires Valid() && -Int64.TWO_63 as real <= x < Int64.TWO_63 as real
      ensures x == toInt64(x) as real <==> x.Floor as real == x
    {
      assert toInt64(x) == Truncate(x);
      TruncateIntegral(x);
    }

    // Below an object property the properties map takes the place of the schema; no other property is descended into.
    lemma NestedReadsPropertiesMap(p: Object, val: Value)
      ensures "type" in p && p["type"] == Str("object") && "properties" in p && p["properties"].Obj? && val.Obj? ==>
        (ValueAccepts(p, val) <==> PropertyAccepts(p, val) && NodeAccepts(p["properties"].fields, val.fields))
      ensures !("type" in p && p["type"] == Str("object") && "properties" in p && p["properties"].Obj?) ==>
        (ValueAccepts(p, val) <==> PropertyAccepts(p, val))
    {
    }

    // ----- the documented recursion -----

    /** The recursion the validator documents: below an object property its own schema applies. */
    ghost predicate DocumentedNode(s: Object, data: Object)
      decreases Obj(data), 1
    {
      && !Missing(s, data)
      && forall name :: Checked(s, data, name) ==> DocumentedValue(PropertiesOf(s)[name].fields, data[name])
    }

    ghost predicate DocumentedValue(p: Object, val: Value)
      decreases val, 2
    {
      && PropertyAccepts(p, val)
      && ("type" in p && p["type"] == Str("object") && val.Obj? ==> DocumentedNode(p, val.fields))
    }

    // What the documented recursion accepts is accepted.
    lemma DocumentedIsAccepted(s: Object, data: Object)
      requires WellFormed(s) && DocumentedNode(s, data)
      ensures NodeAccepts(s, data)
    {
      PropertiesStayWellFormed(s);
      VerdictIsDepthOne(s, data);
    }

    /** p puts no condition on what is inside an object: either it admits no object, or it requires no
        member and describes none by a known type or an enum. */
    ghost predicate NothingNested(p: Object) {
      TypeOf(p) == "object" && !("enum" in p && p["enum"].Arr?) ==>
        && (forall r :: r in RequiredOf(p) && r.Str? ==> r.s == "")
        && forall name :: name in PropertiesOf(p) && PropertiesOf(p)[name].Obj? ==>
             Unconstrained(PropertiesOf(p)[name].fields)
    }

    // The documented recursion is what a property check does exactly when nothing is nested.
    lemma DocumentedExactlyWhenNothingNested(p: Object)
      requires WellFormed(p)
      ensures (forall val :: ValueAccepts(p, val) <==> DocumentedValue(p, val)) <==> NothingNested(p)
    {
      if NothingNested(p) {
        forall val ensures ValueAccepts(p, val) <==> DocumentedValue(p, val) {
          ValueVerdict(p, val);
          if TypeOf(p) == "object" && val.Obj? && PropertyAccepts(p, val) {
            NothingNestedAcceptsAll(p, val.fields);
          }
        }
      } else {
        var data := NestedViolation(p);
        var val := Obj(data);
        ValueVerdict(p, val);
        assert ValueAccepts(p, val) && !DocumentedValue(p, val);
      }
    }

    /** Some value passes the property's own type and enum. */
    predicate Fillable(p: Object) {
      "enum" in p && p["enum"].Arr? ==> exists e :: e in p["enum"].elems && Scalar(e) && TypeAccepts(TypeOf(p), e)
    }

    lemma SampleValue(p: Object) returns (val: Value)
      ensures Fillable(p) <==> PropertyAccepts(p, val)
      ensures !Fillable(p) ==> forall u :: !PropertyAccepts(p, u)
    {
      val := Null;
      if "enum" in p && p["enum"].Arr? {
        if Fillable(p) {
          val :| val in p["enum"].elems && Scalar(val) && TypeAccepts(TypeOf(p), val);
        }
      } else {
        match TypeOf(p)
        case "string" => val := Str("");
        case "number" | "integer" => val := GoInt(0);
        case "boolean" => val := Bool(true);
        case "array" => val := Arr([]);
        case "object" => val := Obj(map[]);
        case _ =>
      }
    }

    /** Some object has every required member, with a value that passes if the member is described. */
    ghost predicate Satisfiable(s: Object) {
      forall r :: r in RequiredOf(s) && r.Str? && r.s != "" && Described(s, r.s) ==>
        Fillable(PropertiesOf(s)[r.s].fields)
    }

    /** The schema of the property is an object. */
    predicate Described(s: Object, name: string) {
      name in PropertiesOf(s) && PropertiesOf(s)[name].Obj?
    }

    ghost predicate AllNothingNested(s: Object) {
      forall name :: Described(s, name) ==>
        NothingNested(PropertiesOf(s)[name].fields)
    }

    // Validation is the documented recursion on all inputs exactly when no property nests anything, or when no
    // input is accepted at all.
    lemma DocumentedExactly(s: Object)
      requires WellFormed(s)
      ensures (forall data :: NodeAccepts(s, data) <==> DocumentedNode(s, data))
         <==> (Satisfiable(s) ==> AllNothingNested(s))
    {
      if !Satisfiable(s) || AllNothingNested(s) {
        forall data ensures NodeAccepts(s, data) <==> DocumentedNode(s, data) {
          if DocumentedNode(s, data) { DocumentedIsAccepted(s, data); }
          if NodeAccepts(s, data) {
            AcceptedIsSatisfiable(s, data);
            NothingNestedIsDocumented(s, data);
          }
        }
      } else {
        var name :| Described(s, name) && !NothingNested(PropertiesOf(s)[name].fields);
        var data := AcceptedViolation(s, name);
        assert NodeAccepts(s, data) && !DocumentedNode(s, data);
      }
    }

    lemma AcceptedIsSatisfiable(s: Object, data: Object)
      requires WellFormed(s) && NodeAccepts(s, data)
      ensures Satisfiable(s)
    {
      VerdictIsDepthOne(s, data);
      forall r | r in RequiredOf(s) && r.Str? && r.s != "" && Described(s, r.s)
        ensures Fillable(PropertiesOf(s)[r.s].fields)
      {
        assert PropertyAccepts(PropertiesOf(s)[r.s].fields, data[r.s]);
        var val := SampleValue(PropertiesOf(s)[r.s].fields);
      }
    }

    lemma NothingNestedIsDocumented(s: Object, data: Object)
      requires WellFormed(s) && AllNothingNested(s) && NodeAccepts(s, data)
      ensures DocumentedNode(s, data)
    {
      forall name | Checked(s, data, name)
        ensures DocumentedValue(PropertiesOf(s)[name].fields, data[name])
      {
        DocumentedExactlyWhenNothingNested(PropertiesOf(s)[name].fields);
        assert ValueAccepts(PropertiesOf(s)[name].fields, data[name]);
      }
    }

    // A required member that no property describes may be anything, and the property in question may nest.
    lemma AcceptedViolation(s: Object, name: string) returns (data: Object)
      requires WellFormed(s) && Satisfiable(s)
      requires Described(s, name) && !NothingNested(PropertiesOf(s)[name].fields)
      ensures NodeAccepts(s, data) && !DocumentedNode(s, data)
    {
      var p := PropertiesOf(s)[name].fields;
      var inner := NestedViolation(p);
      var samples := Samples(s, RequiredOf(s));
      data := samples[name := Obj(inner)];
      assert PropertyAccepts(p, Obj(inner)) && !DocumentedValue(p, data[name]);
      VerdictIsDepthOne(s, data);
    }

    lemma {:induction false} Samples(s: Object, required: seq<Value>) returns (data: Object)
      requires WellFormed(s) && Satisfiable(s) && forall r :: r in required ==> r in RequiredOf(s)
      ensures forall r :: r in required && r.Str? && r.s != "" ==> r.s in data
      ensures forall name :: Checked(s, data, name) ==>
        PropertyAccepts(PropertiesOf(s)[name].fields, data[name])
    {
      data := map[];
      if required != [] {
        data := Samples(s, required[1..]);
        var r := required[0];
        assert required == [r] + required[1..];
        if r.Str? && r.s != "" {
          var val := Null;
          if Described(s, r.s) { val := SampleValue(PropertiesOf(s)[r.s].fields); }
          data := data[r.s := val];
        }
      }
    }

    lemma NothingNestedAcceptsAll(p: Object, data: Object)
      requires NothingNested(p) && TypeOf(p) == "object" && !("enum" in p && p["enum"].Arr?)
      ensures DocumentedNode(p, data)
    {
      forall name | name in PropertiesOf(p) && name in data && PropertiesOf(p)[name].Obj?
        ensures DocumentedValue(PropertiesOf(p)[name].fields, data[name])
      {
        assert Unconstrained(PropertiesOf(p)[name].fields);
      }
    }

    lemma NestedViolation(p: Object) returns (data: Object)
      requires WellFormed(p) && !NothingNested(p)
      ensures !DocumentedNode(p, data)
    {
      if r :| r in RequiredOf(p) && r.Str? && r.s != "" {
        data := map[];
      } else {
        var name :| Described(p, name) && !Unconstrained(PropertiesOf(p)[name].fields);
        assert Described(p, name);
        var bad := Unfit(PropertiesOf(p)[name].fields);
        data := map[name := bad];
        assert Checked(p, data, name) && !DocumentedValue(PropertiesOf(p)[name].fields, bad);
      }
    }

    lemma Unfit(p: Object) returns (bad: Value)
      requires !Unconstrained(p)
      ensures !PropertyAccepts(p, bad)
    {
      bad := if "enum" in p && p["enum"].Arr? then Arr([]) else if TypeOf(p) == "null" then Bool(true) else Null;
    }
  }

  method Search(enum: seq<Value>, val: Value) returns (v: Verdict)
    ensures v == EnumVerdict(enum, val)
  {
    for i := 0 to |enum|
      invariant forall j :: 0 <= j < i ==> enum[j] != val && !ComparisonPanics(enum[j], val)
    {
      assert enum[i] in enum;
      if ComparisonPanics(enum[i], val) {
        return Panicked;
      }
      if enum[i] == val {
        return Accepted;
      }
    }
    return Rejected;
  }

  predicate Scalar(v: Value) {
    !v.Arr? && !v.Obj?
  }

  /** == on two interface values panics when both hold a slice or both hold a map. */
  predicate ComparisonPanics(a: Value, b: Value) {
    (a.Arr? && b.Arr?) || (a.Obj? && b.Obj?)
  }

  /** A scalar is looked up; an array or object matches nothing and panics beside another of its kind. */
  function EnumVerdict(enum: seq<Value>, val: Value): Verdict {
    if exists e :: e in enum && ComparisonPanics(e, val) then Panicked
    else if val in enum then Accepted
    else Rejected
  }

  // ----- schemas -----

  /** The schema of an enum with the one member v. */
  function Lists(v: Value): Value {
    Obj(map["enum" := Arr([v])])
  }

  /** The schema of a string. */
  function IsText(): Value {
    Obj(map["type" := Str("string")])
  }

  /** The properties are schemas again: objects, or one of the booleans, which the validator skips. The schema
      of a property that is itself called "properties" has no other keyword that holds an object. */
  ghost predicate WellFormed(s: Object)
    decreases Obj(s)
  {
    && (forall name :: name in PropertiesOf(s) ==>
          PropertiesOf(s)[name].Bool? || (PropertiesOf(s)[name].Obj? && WellFormed(PropertiesOf(s)[name].fields)))
    && OnlyPropertiesNests(PropertiesOf(PropertiesOf(s)))
  }

  ghost predicate PropertiesWellFormed(props: Object) {
    && (forall name :: name in props ==>
          props[name].Bool? || (props[name].Obj? && WellFormed(props[name].fields)))
    && OnlyPropertiesNests(PropertiesOf(props))
  }

  predicate OnlyPropertiesNests(s: Object) {
    forall k :: k in s && k != "properties" ==> !s[k].Obj?
  }

  /** No value can violate the schema's own type or enum. */
  predicate Unconstrained(p: Object) {
    && TypeOf(p) !in TYPE_NAMES
    && !("enum" in p && p["enum"].Arr?)
  }

  const TYPE_NAMES: set<string> := {"string", "number", "integer", "boolean", "array", "object", "null"}

  // ----- JSON Schema Validation draft 2020-12 -----

  predicate Numeric(v: Value) {
    v.Number? || v.GoInt? || v.GoInt64?
  }

  function NumericValue(v: Value): real
    requires Numeric(v)
  {
    match v
    case Number(x) => x
    case GoInt(i) => i as real
    case GoInt64(l) => l as real
  }

  /** Equality of JSON scalars: numbers by value. */
  predicate JsonEqual(a: Value, b: Value) {
    if Numeric(a) && Numeric(b) then NumericValue(a) == NumericValue(b) else a == b
  }

  /** Section 6.1.1: an integer is any number with a zero fractional part. */
  predicate HasType(typ: string, val: Value) {
    match typ
    case "string" => val.Str?
    case "number" => Numeric(val)
    case "integer" => Numeric(val) && NumericValue(val).Floor as real == NumericValue(val)
    case "boolean" => val.Bool?
    case "array" => val.Arr?
    case "object" => val.Obj?
    case "null" => val.Null?
    case _ => false
  }

  /** Sections 6.1.1, 6.1.2 and 6.5.3, and section 10.3.2.1 of JSON Schema Core, applied recursively. Lists of types
      and boolean schemas put no condition here, so whatever conforms to the standard conforms. */
  ghost predicate Conforms(s: Object, val: Value)
    decreases val
  {
    && ("type" in s && s["type"].Str? ==> HasType(s["type"].s, val))
    && ("enum" in s && s["enum"].Arr? ==> exists e :: e in s["enum"].elems && JsonEqual(e, val))
    && (val.Obj? ==>
          && (forall r :: r in RequiredOf(s) && r.Str? ==> r.s in val.fields)
          && forall name :: name in PropertiesOf(s) && name in val.fields && PropertiesOf(s)[name].Obj? ==>
               Conforms(PropertiesOf(s)[name].fields, val.fields[name]))
  }

  /** Numbers as encoding/json decodes them, inside the range of int64. */
  predicate DecodedNumber(v: Value) {
    Numeric(v) ==> v.Number? && -Int64.TWO_63 as real <= v.x < Int64.TWO_63 as real
  }

  /** The enums of the properties list scalars as encoding/json decodes them. */
  ghost predicate DecodedEnums(s: Object) {
    forall name :: name in PropertiesOf(s) && PropertiesOf(s)[name].Obj? ==>
      var p := PropertiesOf(s)[name].fields;
      "enum" in p && p["enum"].Arr? ==>
        forall e :: e in p["enum"].elems ==> Scalar(e) && (Numeric(e) ==> e.Number?)
  }

  function Truncate(x: real): int {
    if x >= 0.0 then x.Floor else -((-x).Floor)
  }

  lemma FloorOfInt(k: int, x: real)
    requires x == k as real
    ensures x.Floor == k
  {
  }

  lemma TruncateIntegral(x: real)
    ensures x == Truncate(x) as real <==> x.Floor as real == x
  {
    if x < 0.0 {
      if x.Floor as real == x { FloorOfInt(-x.Floor, -x); }
      if x == Truncate(x) as real { FloorOfInt(Truncate(x), x); }
    }
  }

  /** A comparison that panics never matches, nor does any later one. */
  predicate EnumAccepts(enum: seq<Value>, val: Value) {
    Scalar(val) && val in enum
  }
}
