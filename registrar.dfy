/**
 * The route table of the HTTP server (src/http.js:103-128).
 *
 * The directory walk and `require` are outside the model: the walk's
 * result is given as a sequence of `RouteFile`s, each holding the
 * file's path and the names of the methods its module exports, in the
 * order `Object.keys` lists them. Each file is mounted at its derived
 * path; every export name becomes one route for that path; then the
 * catch-all route for every method and path and the health check
 * `GET /status` are added. Nothing is de-duplicated.
 */
module Registrar {
  import opened JsString
  import opened RoutePath

  /** An HTTP method, or every method at once (`fastify.all`). */
  datatype Method = Verb(name: string) | AnyMethod

  datatype Route = Route(methods: Method, path: string)

  /** A module found below the routes directory: its path and its exported method names. */
  datatype RouteFile = RouteFile(file: string, exports: seq<string>)

  /** A module once its path is derived: where it is served, and its exported method names. */
  datatype Mount = Mount(path: string, exports: seq<string>)

  /** The route served by the SvelteKit settings handler for everything else. */
  const CatchAll: Route := Route(AnyMethod, "/*")

  /** The health check. */
  const StatusRoute: Route := Route(Verb("GET"), "/status")

  /** A walked route file, mounted at the path derived from its name. */
  function MountOf(dir: string, f: RouteFile): (r: Mount) {
    Mount(DerivePath(dir, f.file), f.exports)
  }

  /** Every walked file mounted, in walk order. */
  function Mounts(dir: string, files: seq<RouteFile>): (r: seq<Mount>) {
    seq(|files|, i requires 0 <= i < |files| => MountOf(dir, files[i]))
  }

  /** The route registered for export `name` of a mounted module. */
  function Entry(m: Mount, name: string): (r: Route) {
    Route(Verb(ToUpperCase(name)), m.path)
  }

  /** The routes of one module, in export order. */
  function MountRoutes(m: Mount): (r: seq<Route>) {
    seq(|m.exports|, i requires 0 <= i < |m.exports| => Entry(m, m.exports[i]))
  }

  /** The routes of all modules, module after module. */
  function Table(ms: seq<Mount>): (r: seq<Route>)
    decreases |ms|
  {
    if ms == [] then []
    else Table(ms[..|ms| - 1]) + MountRoutes(ms[|ms| - 1])
  }

  /** The routes the walk of `dir` discovers. */
  function Discovered(dir: string, files: seq<RouteFile>): (r: seq<Route>) {
    Table(Mounts(dir, files))
  }

  /** The whole table, in registration order. */
  function RouteTable(dir: string, files: seq<RouteFile>): (r: seq<Route>) {
    Discovered(dir, files) + [CatchAll, StatusRoute]
  }

  /** The number of exports over all modules. */
  function ExportCount(ms: seq<Mount>): (n: nat)
    decreases |ms|
  {
    if ms == [] then 0
    else ExportCount(ms[..|ms| - 1]) + |ms[|ms| - 1].exports|
  }

  /** Where export `mi` of module `fi` lands in the table. */
  function Position(ms: seq<Mount>, fi: nat, mi: nat): (p: nat)
    requires fi <= |ms|
  {
    ExportCount(ms[..fi]) + mi
  }

  // ---------------------------------------------------------------
  // The shape of the table
  // ---------------------------------------------------------------

  /** Sequence algebra: a prefix of a prefix is a prefix. */
  lemma PrefixOfPrefix(ms: seq<Mount>, i: nat, j: nat)
    requires i <= j <= |ms|
    ensures ms[..j][..i] == ms[..i]
  {
  }

  /** One route per export. */
  lemma {:induction false} TableLength(ms: seq<Mount>)
    ensures |Table(ms)| == ExportCount(ms)
    decreases |ms|
  {
    if ms != [] {
      TableLength(ms[..|ms| - 1]);
    }
  }

  /** Export `mi` of module `fi` is registered at `Position(ms, fi, mi)`. */
  lemma {:induction false} TableAt(ms: seq<Mount>, fi: nat, mi: nat)
    requires fi < |ms| && mi < |ms[fi].exports|
    ensures Position(ms, fi, mi) < |Table(ms)|
    ensures Table(ms)[Position(ms, fi, mi)] == Entry(ms[fi], ms[fi].exports[mi])
    decreases |ms|
  {
    var init := ms[..|ms| - 1];
    TableLength(init);
    if fi == |ms| - 1 {
      assert ms[..fi] == init;
      assert MountRoutes(ms[fi])[mi] == Entry(ms[fi], ms[fi].exports[mi]);
    } else {
      TableAt(init, fi, mi);
      PrefixOfPrefix(ms, fi, |ms| - 1);
      assert init[fi] == ms[fi];
    }
  }

  /** Which export of which module the route at index `k` comes from. */
  lemma {:induction false} TableIndex(ms: seq<Mount>, k: nat) returns (fi: nat, mi: nat)
    requires k < |Table(ms)|
    ensures fi < |ms| && mi < |ms[fi].exports|
    ensures Position(ms, fi, mi) == k
    ensures Table(ms)[k] == Entry(ms[fi], ms[fi].exports[mi])
    decreases |ms|
  {
    var init := ms[..|ms| - 1];
    TableLength(init);
    if k < ExportCount(init) {
      fi, mi := TableIndex(init, k);
      PrefixOfPrefix(ms, fi, |ms| - 1);
      assert init[fi] == ms[fi];
    } else {
      fi, mi := |ms| - 1, k - ExportCount(init);
      assert ms[..fi] == init;
      assert MountRoutes(ms[fi])[mi] == Entry(ms[fi], ms[fi].exports[mi]);
    }
  }

  /** Counting the exports of a longer prefix never gives less. */
  lemma {:induction false} ExportCountMonotone(ms: seq<Mount>, i: nat, j: nat)
    requires i <= j <= |ms|
    ensures ExportCount(ms[..i]) <= ExportCount(ms[..j])
    decreases j
  {
    if i < j {
      ExportCountMonotone(ms, i, j - 1);
      PrefixOfPrefix(ms, j - 1, j);
    }
  }

  /** Position grows with the pair (module, export): routes appear in walk order, then export order. */
  lemma PositionOrder(ms: seq<Mount>, fi: nat, mi: nat, fj: nat, mj: nat)
    requires fi < |ms| && mi < |ms[fi].exports|
    requires fj < |ms|
    requires fi < fj || (fi == fj && mi < mj)
    ensures Position(ms, fi, mi) < Position(ms, fj, mj)
  {
    if fi < fj {
      ExportCountMonotone(ms, fi + 1, fj);
      PrefixOfPrefix(ms, fi, fi + 1);
    }
  }

  /** A route is in the table exactly when some export of some module gives it. */
  lemma TableMembers(ms: seq<Mount>, r: Route)
    ensures r in Table(ms) <==>
      exists fi, mi :: 0 <= fi < |ms| && 0 <= mi < |ms[fi].exports| && r == Entry(ms[fi], ms[fi].exports[mi])
  {
    var t := Table(ms);
    if r in t {
      var k :| 0 <= k < |t| && t[k] == r;
      var fi, mi := TableIndex(ms, k);
    }
    if exists fi, mi :: 0 <= fi < |ms| && 0 <= mi < |ms[fi].exports| && r == Entry(ms[fi], ms[fi].exports[mi]) {
      var fi, mi :| 0 <= fi < |ms| && 0 <= mi < |ms[fi].exports| && r == Entry(ms[fi], ms[fi].exports[mi]);
      TableAt(ms, fi, mi);
    }
  }

  /**
   * Every discovered route has one upper-case HTTP method and a path
   * that is non-empty and free of backslashes.
   */
  lemma DiscoveredWellFormed(dir: string, files: seq<RouteFile>, k: nat)
    requires k < |Discovered(dir, files)|
    ensures Discovered(dir, files)[k].methods.Verb?
    ensures NoAsciiLower(Discovered(dir, files)[k].methods.name)
    ensures Discovered(dir, files)[k].path != [] && '\\' !in Discovered(dir, files)[k].path
  {
    var ms := Mounts(dir, files);
    var fi, mi := TableIndex(ms, k);
    ToUpperCaseNoLower(ms[fi].exports[mi]);
    assert ms[fi] == MountOf(dir, files[fi]);
    DerivePathNoBackslash(dir, files[fi].file);
  }

  /** The discovered routes come first, then the catch-all, then the health check. */
  lemma RouteTableShape(dir: string, files: seq<RouteFile>)
    ensures |RouteTable(dir, files)| == |Discovered(dir, files)| + 2
    ensures RouteTable(dir, files)[..|Discovered(dir, files)|] == Discovered(dir, files)
    ensures RouteTable(dir, files)[|Discovered(dir, files)|] == CatchAll
    ensures RouteTable(dir, files)[|Discovered(dir, files)| + 1] == StatusRoute
  {
  }

  /**
   * Nothing is skipped: a module of its own that serves `GET /status`
   * leaves that route in the table twice.
   */
  lemma StatusNotDeduplicated(dir: string, files: seq<RouteFile>)
    requires StatusRoute in Discovered(dir, files)
    ensures multiset(RouteTable(dir, files))[StatusRoute] >= 2
  {
    var d := Discovered(dir, files);
    assert multiset(RouteTable(dir, files)) == multiset(d) + multiset([CatchAll]) + multiset([StatusRoute]);
  }

  /**
   * Export names that differ only in ASCII case (`get` and `GET`) give
   * the same route twice.
   */
  lemma CaseCollision(m: Mount, i: nat, j: nat)
    requires i < j < |m.exports|
    requires |m.exports[i]| == |m.exports[j]|
    requires forall k :: 0 <= k < |m.exports[i]| ==> UpperChar(m.exports[i][k]) == UpperChar(m.exports[j][k])
    ensures MountRoutes(m)[i] == MountRoutes(m)[j]
  {
    ToUpperCaseIgnoresCase(m.exports[i], m.exports[j]);
  }

  /** A module exporting `get` and `post` is served for `GET` and then `POST` at its path. */
  lemma GetPostExample(path: string)
    ensures MountRoutes(Mount(path, ["get", "post"])) == [Route(Verb("GET"), path), Route(Verb("POST"), path)]
  {
    assert ToUpperCase("get") == "GET";
    assert ToUpperCase("post") == "POST";
  }

  /** The table of one more route file is the old table followed by that file's routes. */
  lemma TableStep(ms: seq<Mount>, i: nat)
    requires i < |ms|
    ensures Table(ms[..i + 1]) == Table(ms[..i]) + MountRoutes(ms[i])
  {
    PrefixOfPrefix(ms, i, i + 1);
  }

  /** Sequence algebra: concatenation is associative (stated once to keep the loop proof small). */
  lemma AppendAssociative(a: seq<Route>, b: seq<Route>, c: seq<Route>)
    ensures (a + b) + c == a + (b + c)
  {
  }

  /** One more export of the current file adds exactly its entry. */
  lemma MountRoutesStep(m: Mount, j: nat)
    requires j < |m.exports|
    ensures MountRoutes(m)[..j + 1] == MountRoutes(m)[..j] + [Entry(m, m.exports[j])]
  {
  }

  // ---------------------------------------------------------------
  // The server object whose route table the start-up code fills in
  // ---------------------------------------------------------------

  class Server {
    /** The routes registered so far, in registration order. */
    var routes: seq<Route>

    constructor ()
      ensures routes == []
    {
      routes := [];
    }

    /** `fastify.route`, `fastify.all`, `fastify.get`: append one route. */
    method AddRoute(r: Route)
      modifies this
      ensures routes == old(routes) + [r]
    {
      routes := routes + [r];
    }

    /** The two nested `forEach` loops: every export of every file, in order. */
    method LoadRoutes(dir: string, files: seq<RouteFile>)
      modifies this
      ensures routes == old(routes) + Discovered(dir, files)
    {
      ghost var ms := Mounts(dir, files);
      for i := 0 to |files|
        invariant routes == old(routes) + Table(ms[..i])
      {
        var f := files[i];
        var path := DerivePath(dir, f.file);
        assert ms[i] == Mount(path, f.exports);
        ghost var before := routes;
        for j := 0 to |f.exports|
          invariant routes == before + MountRoutes(ms[i])[..j]
        {
          AddRoute(Route(Verb(ToUpperCase(f.exports[j])), path));
          MountRoutesStep(ms[i], j);
          AppendAssociative(before, MountRoutes(ms[i])[..j], [Entry(ms[i], f.exports[j])]);
        }
        assert MountRoutes(ms[i])[..|f.exports|] == MountRoutes(ms[i]);
        TableStep(ms, i);
        AppendAssociative(old(routes), Table(ms[..i]), MountRoutes(ms[i]));
      }
      assert ms[..|files|] == ms;
    }

    /** Start-up: the discovered routes, then the catch-all, then `GET /status`. */
    method Boot(dir: string, files: seq<RouteFile>)
      modifies this
      ensures routes == old(routes) + RouteTable(dir, files)
    {
      LoadRoutes(dir, files);
      AddRoute(CatchAll);
      AddRoute(StatusRoute);
    }
  }
}
