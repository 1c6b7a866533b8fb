/**
 * The recursive resolver of src/package.js. A node starts as an empty object,
 * is filled in one step with its name, version and dependencies, and each
 * dependency's constraint string is then replaced, in place, by a child node
 * resolved from that string.
 */
module Package {
  import opened Wrappers
  import opened Errors
  import opened Patterns
  import opened VersionParsing
  import opened VersionSelection

  /**
   * The registry, as the two requests the resolver makes: the metadata of one
   * version (`/{name}/{version}`) and a package's whole `versions` catalog
   * (`/{name}`). `None` is a request that failed.
   */
  datatype Registry = Registry(exact: (string, string) -> Option<Metadata>, catalog: string -> Option<Catalog>)

  /** The JSON value of a node: `{}`, a node whose error went to `next`, or a filled node. */
  datatype Tree =
    | Empty
    | Failed(error: Error)
    | Resolved(name: string, version: string, dependencies: Dependencies)

  /** A filled node's `dependencies`: `null`, or an object whose entries keep their key order. */
  datatype Dependencies = JsonNull | Object(entries: seq<(string, Dep)>)

  /** One value of a `dependencies` object: the constraint string still, or the child node. */
  datatype Dep = Pending(constraint: string) | Done(tree: Tree)

  /** A tree in which every node was reached: no `{}` left by the depth bound and no constraint left unresolved. */
  predicate Complete(t: Tree)
    decreases t
  {
    match t
    case Empty => false
    case Failed(_) => true
    case Resolved(_, _, JsonNull) => true
    case Resolved(_, _, Object(entries)) =>
      forall j | 0 <= j < |entries| :: entries[j].1.Done? && Complete(entries[j].1.tree)
  }

  // ---------------------------------------------------------------------------
  // What a resolution produces. `fuel` bounds the depth: a node reached with no
  // fuel left stays `{}`.

  /** `getPackageEndpoint`: parse the constraint, then take the exact or the catalog route. */
  function Resolution(reg: Registry, fuel: nat, name: string, version: string): (r: Tree)
    ensures r.Empty? <==> fuel == 0
    ensures fuel > 0 && ParseVersion(version).Failure? ==> r == Failed(ParseVersion(version).error)
    ensures r.Resolved? ==> r.name == name
    decreases fuel, 1
  {
    ParsedIsRoutable(version);
    Route(reg, fuel, name, ParseVersion(version))
  }

  /**
   * The rest of `getPackageEndpoint` once the constraint is parsed: a parse
   * error is reported for the node, else `hitVersionEndpoint` picks the exact
   * or the catalog route. A node reached with no fuel left stays `{}`.
   */
  function Route(reg: Registry, fuel: nat, name: string, parsed: Result<Constraint, Error>): (r: Tree)
    requires Routable(parsed)
    ensures r.Empty? <==> fuel == 0
    ensures fuel > 0 && parsed.Failure? ==> r == Failed(parsed.error)
    ensures r.Resolved? ==> r.name == name
    decreases fuel, 0
  {
    if fuel == 0 then Empty
    else
      match parsed
      case Failure(e) => Failed(e)
      case Success(c) => Endpoint(reg, fuel - 1, name, c)
  }

  /** The choice `getPackageEndpoint` makes with `hitVersionEndpoint` for a parsed constraint. */
  function Endpoint(reg: Registry, fuel: nat, name: string, c: Constraint): (r: Tree)
    requires Routable(Success(c))
    ensures !r.Empty?
    ensures r.Resolved? ==> r.name == name
    decreases fuel, 4
  {
    if HitVersionEndpoint(c.versionNumber, c.qualifier) then VersionEndpoint(reg, fuel, name, c.versionNumber)
    else GenericEndpoint(reg, fuel, name, c.versionNumber, c.qualifier)
  }

  /** `getVersionEndpoint`: the node records the parsed version string itself. */
  function VersionEndpoint(reg: Registry, fuel: nat, name: string, versionNumber: string): (r: Tree)
    ensures r.Failed? <==> reg.exact(name, versionNumber).None?
    ensures r.Failed? ==> r.error == FetchFailed(name)
    ensures r.Resolved? && r.name == name && r.version == versionNumber <==> reg.exact(name, versionNumber).Some?
    decreases fuel, 3
  {
    match reg.exact(name, versionNumber)
    case None => Failed(FetchFailed(name))
    case Some(md) => Record(reg, fuel, name, versionNumber, md.dependencies)
  }

  /** `getGenericEndpoint`: the node records the `version` field of the selected catalog entry. */
  function GenericEndpoint(reg: Registry, fuel: nat, name: string, versionNumber: string, qualifier: Qualifier): (r: Tree)
    ensures !r.Empty?
    ensures reg.catalog(name).None? ==> r == Failed(FetchFailed(name))
    ensures r.Resolved? ==>
      r.name == name && reg.catalog(name).Some? &&
      (exists i | 0 <= i < |reg.catalog(name).value| :: reg.catalog(name).value[i].1.version == r.version)
    decreases fuel, 3
  {
    match reg.catalog(name)
    case None => Failed(FetchFailed(name))
    case Some(versions) =>
      match Selection(versions, versionNumber, qualifier)
      case Failure(e) => Failed(e)
      case Success(None) => Failed(NoVersionSelected)
      case Success(Some(md)) => Record(reg, fuel, name, md.version, md.dependencies)
  }

  /**
   * A filled node: `null` dependencies stay `null`, and otherwise every key,
   * in order, holds the child resolved from its own constraint.
   */
  function Record(reg: Registry, fuel: nat, name: string, version: string, dependencies: Option<seq<(string, string)>>)
    : (t: Tree)
    ensures t.Resolved? && t.name == name && t.version == version
    ensures t.dependencies.JsonNull? <==> dependencies.None?
    ensures dependencies.Some? ==>
      |t.dependencies.entries| == |dependencies.value| &&
      forall j | 0 <= j < |dependencies.value| :: t.dependencies.entries[j].0 == dependencies.value[j].0
    decreases fuel, 2
  {
    Resolved(name, version,
      match dependencies
      case None => JsonNull
      case Some(d) => Object(seq(|d|, j requires 0 <= j < |d| => (d[j].0, Done(Resolution(reg, fuel, d[j].0, d[j].1))))))
  }

  /** A slot of a node's `dependencies` object: the constraint string, or the child object put there. */
  datatype Slot = Raw(constraint: string) | Sub(node: Node)

  /** `result`, `dependencyObj`: one object of the tree under construction. */
  class Node {
    var name: string
    var version: string
    var dependencies: Option<seq<(string, Slot)>>
    /** Whether `assignProperties` has run on this object. */
    var filled: bool
    /** The error this node's call passed to `next`. */
    var failure: Option<Error>
    ghost var Repr: set<object>

    /** `{}`. */
    constructor ()
      ensures Valid() && Repr == {this} && Value() == Empty
    {
      name, version, dependencies := "", "", None;
      filled, failure := false, None;
      Repr := {this};
    }

    /**
     * The node owns the nodes in its slots, none of which reaches back to it;
     * a failed node was never filled, and only a filled node has dependencies.
     */
    ghost predicate Valid()
      reads this, Repr
      decreases Repr, 1
    {
      this in Repr &&
      (failure.Some? ==> !filled) &&
      (dependencies.Some? ==> filled && ChildrenValid(dependencies.value))
    }

    ghost predicate ChildrenValid(d: seq<(string, Slot)>)
      requires this in Repr
      reads this, Repr
      decreases Repr, 0
    {
      forall j | 0 <= j < |d| && d[j].1.Sub? ::
        d[j].1.node in Repr && d[j].1.node.Repr <= Repr && this !in d[j].1.node.Repr && d[j].1.node.Valid()
    }

    /** `next(error)`: the error is reported for this node, which stays unfilled. */
    method Fail(e: Error)
      requires Valid() && Repr == {this} && Value() == Empty
      modifies this
      ensures Valid() && Repr == {this} && Value() == Failed(e)
    {
      failure := Some(e);
    }

    /** The JSON this object serialises to; a node whose call reported an error to `next` is `Failed`. */
    ghost function Value(): Tree
      reads this, Repr
      requires Valid()
      decreases Repr, 1
    {
      if failure.Some? then Failed(failure.value)
      else if !filled then Empty
      else Resolved(name, version, if dependencies.None? then JsonNull else Object(SlotsValue(dependencies.value)))
    }

    ghost function SlotsValue(d: seq<(string, Slot)>): (r: seq<(string, Dep)>)
      requires this in Repr && ChildrenValid(d)
      reads this, Repr
      ensures |r| == |d|
      ensures forall j | 0 <= j < |d| :: r[j].0 == d[j].0
      ensures forall j | 0 <= j < |d| && d[j].1.Raw? :: r[j].1 == Pending(d[j].1.constraint)
      ensures forall j | 0 <= j < |d| && d[j].1.Sub? :: r[j].1 == Done(d[j].1.node.Value())
      decreases Repr, 0, |d|
    {
      if d == [] then []
      else
        var last := d[|d| - 1];
        SlotsValue(d[..|d| - 1]) + [(last.0, match last.1 case Raw(c) => Pending(c) case Sub(n) => Done(n.Value()))]
    }
  }

  /** Every value of a dependencies object as the constraint string it starts as. */
  function AsSlots(d: seq<(string, string)>): (r: seq<(string, Slot)>)
    ensures |r| == |d| && forall j | 0 <= j < |d| :: r[j] == (d[j].0, Raw(d[j].1))
  {
    seq(|d|, j requires 0 <= j < |d| => (d[j].0, Raw(d[j].1)))
  }

  /** `assignProperties`: name, version and dependencies are set together. */
  method AssignProperties(name: string, versionNumber: string, dependencies: Option<seq<(string, string)>>, result: Node)
    requires result.Valid() && result.failure.None?
    modifies result
    ensures result.Valid() && result.Repr == old(result.Repr)
    ensures result.name == name && result.version == versionNumber && result.filled && result.failure.None?
    ensures result.dependencies == if dependencies.None? then None else Some(AsSlots(dependencies.value))
  {
    result.name := name;
    result.version := versionNumber;
    result.dependencies := if dependencies.None? then None else Some(AsSlots(dependencies.value));
    result.filled := true;
  }

  /** `getPackageEndpoint`, filling the empty object `result`. */
  method GetPackageEndpoint(reg: Registry, fuel: nat, name: string, version: string, result: Node)
    requires result.Valid() && result.Repr == {result} && result.Value() == Empty
    modifies result
    ensures result.Valid() && fresh(result.Repr - {result})
    ensures result.Value() == Resolution(reg, fuel, name, version)
    decreases fuel, 1
  {
    ParsedIsRoutable(version);
    TakeRoute(reg, fuel, name, ParseVersion(version), result);
  }

  /** The branch of `getPackageEndpoint` after `parseVersion`, on the empty object `result`. */
  method TakeRoute(reg: Registry, fuel: nat, name: string, parsed: Result<Constraint, Error>, result: Node)
    requires Routable(parsed)
    requires result.Valid() && result.Repr == {result} && result.Value() == Empty
    modifies result
    ensures result.Valid() && fresh(result.Repr - {result})
    ensures result.Value() == Route(reg, fuel, name, parsed)
    decreases fuel, 0
  {
    if fuel == 0 {
      return;
    }
    if parsed.Failure? {
      result.Fail(parsed.error);
    } else {
      assert Route(reg, fuel, name, parsed) == Endpoint(reg, fuel - 1, name, parsed.value);
      if HitVersionEndpoint(parsed.value.versionNumber, parsed.value.qualifier) {
        GetVersionEndpoint(reg, fuel - 1, name, parsed.value.versionNumber, result);
      } else {
        GetGenericEndpoint(reg, fuel - 1, name, parsed.value.versionNumber, parsed.value.qualifier, result);
      }
    }
  }

  /** `getVersionEndpoint`: fetch one version's metadata and record it. */
  method GetVersionEndpoint(reg: Registry, fuel: nat, name: string, versionNumber: string, result: Node)
    requires result.Valid() && result.Repr == {result} && result.Value() == Empty
    modifies result
    ensures result.Valid() && fresh(result.Repr - {result})
    ensures result.Value() == VersionEndpoint(reg, fuel, name, versionNumber)
    decreases fuel, 4
  {
    var npmPackage := reg.exact(name, versionNumber);
    if npmPackage.None? {
      result.Fail(FetchFailed(name));
      return;
    }
    var dependencies := npmPackage.value.dependencies;
    AssignProperties(name, versionNumber, dependencies, result);
    if dependencies.Some? {
      GetDependencies(reg, fuel, dependencies.value, result);
    }
  }

  /** `getGenericEndpoint`: fetch the catalog, choose a version and record it. */
  method GetGenericEndpoint(reg: Registry, fuel: nat, name: string, versionNumber: string, qualifier: Qualifier, result: Node)
    requires result.Valid() && result.Repr == {result} && result.Value() == Empty
    modifies result
    ensures result.Valid() && fresh(result.Repr - {result})
    ensures result.Value() == GenericEndpoint(reg, fuel, name, versionNumber, qualifier)
    decreases fuel, 4
  {
    var npmPackage := reg.catalog(name);
    if npmPackage.None? {
      result.Fail(FetchFailed(name));
      return;
    }
    var packageVersion := ChooseVersion(npmPackage.value, versionNumber, qualifier);
    if packageVersion.Failure? {
      result.Fail(packageVersion.error);
      return;
    }
    if packageVersion.value.None? {
      result.Fail(NoVersionSelected);
      return;
    }
    var md := packageVersion.value.value;
    var dependencies := md.dependencies;
    AssignProperties(name, md.version, dependencies, result);
    if dependencies.Some? {
      GetDependencies(reg, fuel, dependencies.value, result);
    }
  }

  /**
   * `getDependencies`: each key, in order, gets a fresh empty object in its
   * slot, and that object is resolved from the constraint the slot held.
   */
  method GetDependencies(reg: Registry, fuel: nat, dependencies: seq<(string, string)>, result: Node)
    requires result.Valid() && result.Repr == {result}
    requires result.filled && result.failure.None? && result.dependencies == Some(AsSlots(dependencies))
    modifies result
    ensures result.Valid() && fresh(result.Repr - {result})
    ensures result.Value() == Record(reg, fuel, old(result.name), old(result.version), Some(dependencies))
    decreases fuel, 3
  {
    var i := 0;
    while i < |dependencies|
      invariant 0 <= i <= |dependencies|
      invariant result.Valid() && fresh(result.Repr - {result})
      invariant result.name == old(result.name) && result.version == old(result.version)
      invariant result.filled && result.failure.None? && result.dependencies.Some?
      invariant |result.dependencies.value| == |dependencies|
      invariant forall j | 0 <= j < |dependencies| :: result.dependencies.value[j].0 == dependencies[j].0
      invariant forall j | i <= j < |dependencies| :: result.dependencies.value[j].1 == Raw(dependencies[j].1)
      invariant forall j | 0 <= j < i ::
        result.dependencies.value[j].1.Sub? && result.dependencies.value[j].1.node.Valid() &&
        result.dependencies.value[j].1.node.Value() == Resolution(reg, fuel, dependencies[j].0, dependencies[j].1)
    {
      ResolveSlot(reg, fuel, i, result);
      i := i + 1;
    }
    var d := result.dependencies.value;
    var v := result.SlotsValue(d);
    var w := Record(reg, fuel, old(result.name), old(result.version), Some(dependencies)).dependencies.entries;
    assert v == w;
  }

  /** One pass of the loop in `getDependencies`: slot `i` gets a fresh object, resolved from the constraint it held. */
  method ResolveSlot(reg: Registry, fuel: nat, i: nat, result: Node)
    requires result.Valid() && result.filled && result.failure.None? && result.dependencies.Some?
    requires i < |result.dependencies.value| && result.dependencies.value[i].1.Raw?
    modifies result
    ensures result.Valid() && fresh(result.Repr - old(result.Repr))
    ensures result.name == old(result.name) && result.version == old(result.version)
    ensures result.filled && result.failure.None? && result.dependencies.Some?
    ensures var d := old(result.dependencies.value);
      |result.dependencies.value| == |d| &&
      (forall j | 0 <= j < |d| && j != i :: result.dependencies.value[j] == d[j]) &&
      result.dependencies.value[i].0 == d[i].0 && result.dependencies.value[i].1.Sub?
    ensures var d := old(result.dependencies.value);
      forall j | 0 <= j < |d| && j != i && d[j].1.Sub? && old(d[j].1.node.Valid()) :: d[j].1.node.Valid() && d[j].1.node.Value() == old(d[j].1.node.Value())
    ensures var d := old(result.dependencies.value);
      result.dependencies.value[i].1.node.Valid() && result.dependencies.value[i].1.node.Value() == Resolution(reg, fuel, d[i].0, d[i].1.constraint)
    decreases fuel, 2
  {
    var dependencyVersion := result.dependencies.value[i].1.constraint;
    var dependencyObj := new Node();
    result.dependencies := Some(result.dependencies.value[i := (result.dependencies.value[i].0, Sub(dependencyObj))]);
    GetPackageEndpoint(reg, fuel, result.dependencies.value[i].0, dependencyVersion, dependencyObj);
    result.Repr := result.Repr + dependencyObj.Repr;
  }

  // ---------------------------------------------------------------------------
  // Properties of a resolution

  /**
   * Where a filled node's fields come from, once the constraint is parsed: its
   * own name; on the exact route the parsed version string and that version's
   * metadata; on the catalog route the `version` field and the dependencies of
   * an entry of the package's catalog. Either way `dependencies` is `null`
   * exactly when the metadata has none.
   */
  lemma RouteProvenance(reg: Registry, fuel: nat, name: string, parsed: Result<Constraint, Error>)
    requires Routable(parsed) && Route(reg, fuel, name, parsed).Resolved?
    ensures fuel > 0 && parsed.Success?
    ensures var c := parsed.value;
      var t := Route(reg, fuel, name, parsed);
      t.name == name &&
      if HitVersionEndpoint(c.versionNumber, c.qualifier) then
        t.version == c.versionNumber && reg.exact(name, c.versionNumber).Some? &&
        (t.dependencies.JsonNull? <==> reg.exact(name, c.versionNumber).value.dependencies.None?)
      else
        reg.catalog(name).Some? &&
        exists k | 0 <= k < |reg.catalog(name).value| ::
          reg.catalog(name).value[k].1.version == t.version &&
          (t.dependencies.JsonNull? <==> reg.catalog(name).value[k].1.dependencies.None?)
  {
    if fuel > 0 && parsed.Success? {
      var c := parsed.value;
      assert Route(reg, fuel, name, parsed) == Endpoint(reg, fuel - 1, name, c);
      if HitVersionEndpoint(c.versionNumber, c.qualifier) {
        var md := reg.exact(name, c.versionNumber).value;
        assert Endpoint(reg, fuel - 1, name, c) == Record(reg, fuel - 1, name, c.versionNumber, md.dependencies);
      } else {
        assert Endpoint(reg, fuel - 1, name, c) == GenericEndpoint(reg, fuel - 1, name, c.versionNumber, c.qualifier);
        var selected := Selection(reg.catalog(name).value, c.versionNumber, c.qualifier);
        assert selected.Success? && selected.value.Some?;
        var md := selected.value.value;
        assert Endpoint(reg, fuel - 1, name, c) == Record(reg, fuel - 1, name, md.version, md.dependencies);
      }
    }
  }

  /**
   * The depth bound only cuts off what it did not reach: once a resolution is
   * complete, one more level of fuel gives the same tree.
   */
  lemma {:induction false} CompleteIsStable(reg: Registry, fuel: nat, name: string, version: string)
    requires Complete(Resolution(reg, fuel, name, version))
    ensures Resolution(reg, fuel + 1, name, version) == Resolution(reg, fuel, name, version)
    decreases fuel, 2
  {
    ParsedIsRoutable(version);
    RouteIsStable(reg, fuel, name, ParseVersion(version));
  }

  lemma {:induction false} RouteIsStable(reg: Registry, fuel: nat, name: string, parsed: Result<Constraint, Error>)
    requires Routable(parsed) && Complete(Route(reg, fuel, name, parsed))
    ensures Route(reg, fuel + 1, name, parsed) == Route(reg, fuel, name, parsed)
    decreases fuel, 1
  {
    if parsed.Success? {
      assert Route(reg, fuel, name, parsed) == Endpoint(reg, fuel - 1, name, parsed.value);
      EndpointIsStable(reg, fuel - 1, name, parsed.value);
    }
  }

  lemma {:induction false} EndpointIsStable(reg: Registry, fuel: nat, name: string, c: Constraint)
    requires Routable(Success(c)) && Complete(Endpoint(reg, fuel, name, c))
    ensures Endpoint(reg, fuel + 1, name, c) == Endpoint(reg, fuel, name, c)
    decreases fuel, 5
  {
    if HitVersionEndpoint(c.versionNumber, c.qualifier) {
      VersionEndpointIsStable(reg, fuel, name, c.versionNumber);
    } else {
      GenericEndpointIsStable(reg, fuel, name, c.versionNumber, c.qualifier);
    }
  }

  lemma {:induction false} VersionEndpointIsStable(reg: Registry, fuel: nat, name: string, versionNumber: string)
    requires Complete(VersionEndpoint(reg, fuel, name, versionNumber))
    ensures VersionEndpoint(reg, fuel + 1, name, versionNumber) == VersionEndpoint(reg, fuel, name, versionNumber)
    decreases fuel, 4
  {
    if reg.exact(name, versionNumber).Some? {
      RecordIsStable(reg, fuel, name, versionNumber, reg.exact(name, versionNumber).value.dependencies);
    }
  }

  lemma {:induction false} GenericEndpointIsStable(reg: Registry, fuel: nat, name: string, versionNumber: string, qualifier: Qualifier)
    requires Complete(GenericEndpoint(reg, fuel, name, versionNumber, qualifier))
    ensures GenericEndpoint(reg, fuel + 1, name, versionNumber, qualifier) == GenericEndpoint(reg, fuel, name, versionNumber, qualifier)
    decreases fuel, 4
  {
    if reg.catalog(name).Some? {
      var chosen := Selection(reg.catalog(name).value, versionNumber, qualifier);
      if chosen.Success? && chosen.value.Some? {
        var md := chosen.value.value;
        assert GenericEndpoint(reg, fuel, name, versionNumber, qualifier) == Record(reg, fuel, name, md.version, md.dependencies);
        RecordIsStable(reg, fuel, name, md.version, md.dependencies);
      }
    }
  }

  lemma {:induction false} RecordIsStable(reg: Registry, fuel: nat, name: string, version: string,
                                          dependencies: Option<seq<(string, string)>>)
    requires Complete(Record(reg, fuel, name, version, dependencies))
    ensures Record(reg, fuel + 1, name, version, dependencies) == Record(reg, fuel, name, version, dependencies)
    decreases fuel, 3
  {
    if dependencies.Some? {
      var d := dependencies.value;
      var entries := Record(reg, fuel, name, version, dependencies).dependencies.entries;
      var more := Record(reg, fuel + 1, name, version, dependencies).dependencies.entries;
      forall j | 0 <= j < |d| ensures more[j] == entries[j] {
        assert entries[j].1 == Done(Resolution(reg, fuel, d[j].0, d[j].1));
        CompleteIsStable(reg, fuel, d[j].0, d[j].1);
      }
      assert more == entries;
    }
  }

  /**
   * The express 1.0.0 tree of the repository's integration test: express
   * depends on connect ">= 0.3.0", which takes the exact route and records
   * "0.3.0", a leaf whose `dependencies` is `null`. Two levels of fuel reach it all.
   */
  lemma ExpressTree(reg: Registry, express: string, connect: string, v: string, constraint: string, leaf: string)
    requires express == "express" && connect == "connect"
    requires v == "1.0.0" && constraint == ">= 0.3.0" && leaf == "0.3.0"
    requires reg.exact(express, v) == Some(Metadata(v, Some([(connect, constraint)])))
    requires reg.exact(connect, leaf) == Some(Metadata(leaf, None))
    ensures Resolution(reg, 2, express, v) ==
      Resolved(express, v, Object([(connect, Done(Resolved(connect, leaf, JsonNull)))]))
    ensures Complete(Resolution(reg, 2, express, v))
  {
    var child := Resolved(connect, leaf, JsonNull);
    ConnectIsLeaf(reg, connect, constraint, leaf);
    var pv := ParseVersion(v);
    assert pv == Success(Constraint(v, Null)) && HitVersionEndpoint(v, Null) by {
      PlainVersionTakesExactRoute();
    }
    var top := Record(reg, 1, express, v, Some([(connect, constraint)]));
    assert top.dependencies.entries == [(connect, Done(child))];
    assert Resolution(reg, 2, express, v) == top;
  }

  /** The leaf of the express tree: connect ">= 0.3.0" fetched exactly as "0.3.0". */
  lemma ConnectIsLeaf(reg: Registry, connect: string, constraint: string, leaf: string)
    requires constraint == ">= 0.3.0" && leaf == "0.3.0"
    requires reg.exact(connect, leaf) == Some(Metadata(leaf, None))
    ensures Resolution(reg, 1, connect, constraint) == Resolved(connect, leaf, JsonNull)
  {
    var pc := ParseVersion(constraint);
    assert pc == Success(Constraint(leaf, Op(">="))) && HitVersionEndpoint(leaf, Op(">=")) by {
      GreaterOrEqualTakesExactRoute();
    }
  }
}
