/** The plugin mappings table and its synchronisation with the discovered services. */
module PluginTable {
  import opened Wrappers
  import opened Ordering
  import PluginPaths

  datatype Mapping = Mapping(pluginName: string, serviceName: string, mountPrefix: string, enabled: bool)

  datatype Error = UniqueViolation

  /** What Python's `str.strip` removes. */
  predicate IsSpace(c: char) {
    || '\t' <= c <= '\r' || '\U{1C}' <= c <= ' ' || c == '\U{85}' || c == '\U{A0}'
    || c == '\U{1680}' || '\U{2000}' <= c <= '\U{200A}' || c == '\U{2028}' || c == '\U{2029}'
    || c == '\U{202F}' || c == '\U{205F}' || c == '\U{3000}'
  }

  predicate IsSlash(c: char) { c == '/' }

  function StripLeft(s: string, p: char -> bool): string { if s != "" && p(s[0]) then StripLeft(s[1..], p) else s }

  function StripRight(s: string, p: char -> bool): string {
    if s != "" && p(s[|s| - 1]) then StripRight(s[..|s| - 1], p) else s
  }

  function Strip(s: string, p: char -> bool): string { StripRight(StripLeft(s, p), p) }

  /** `plugin_mount_prefix` */
  function MountPrefix(service: string): string {
    "/plg/" + Strip(Strip(service, IsSpace), IsSlash)
  }

  /** Nothing to strip at either end. */
  predicate Trim(s: string, p: char -> bool) { s == "" || (!p(s[0]) && !p(s[|s| - 1])) }

  lemma {:induction false} StripLeftShortens(s: string, p: char -> bool)
    ensures |StripLeft(s, p)| <= |s|
    ensures |StripLeft(s, p)| == |s| ==> StripLeft(s, p) == s
    ensures StripLeft(s, p) == s <==> s == "" || !p(s[0])
  {
    if s != "" { StripLeftShortens(s[1..], p); }
  }

  lemma {:induction false} StripRightShortens(s: string, p: char -> bool)
    ensures |StripRight(s, p)| <= |s|
    ensures |StripRight(s, p)| == |s| ==> StripRight(s, p) == s
    ensures StripRight(s, p) == s <==> s == "" || !p(s[|s| - 1])
  {
    if s != "" { StripRightShortens(s[..|s| - 1], p); }
  }

  lemma StripShortens(s: string, p: char -> bool)
    ensures |Strip(s, p)| <= |s|
    ensures |Strip(s, p)| == |s| ==> Strip(s, p) == s
    ensures Strip(s, p) == s <==> Trim(s, p)
  {
    StripLeftShortens(s, p);
    StripRightShortens(StripLeft(s, p), p);
  }

  /** Stripping leaves the middle of `s`: all that is cut off at either end satisfies `p`, and
      nothing that does is left there. */
  lemma StripIsMiddle(s: string, p: char -> bool) returns (i: nat, j: nat)
    ensures i <= j <= |s| && Strip(s, p) == s[i..j] && Trim(s[i..j], p)
    ensures forall k :: (0 <= k < i || j <= k < |s|) ==> p(s[k])
  {
    i := LeftCut(s, p);
    var n := RightCut(s[i..], p);
    j := i + n;
    assert s[i..][..n] == s[i..j];
    forall k | j <= k < |s| ensures p(s[k]) { assert s[k] == s[i..][k - i]; }
    if s[i..j] != "" { assert s[i..][0] == s[i]; }
  }

  lemma {:induction false} LeftCut(s: string, p: char -> bool) returns (i: nat)
    ensures i <= |s| && StripLeft(s, p) == s[i..] && (i < |s| ==> !p(s[i]))
    ensures forall k :: 0 <= k < i ==> p(s[k])
  {
    i := 0;
    if s != "" && p(s[0]) {
      var rest := LeftCut(s[1..], p);
      i := rest + 1;
    }
  }

  lemma {:induction false} RightCut(s: string, p: char -> bool) returns (n: nat)
    ensures n <= |s| && StripRight(s, p) == s[..n] && (n > 0 ==> !p(s[n - 1]))
    ensures forall k :: n <= k < |s| ==> p(s[k])
  {
    n := |s|;
    if s != "" && p(s[|s| - 1]) {
      n := RightCut(s[..|s| - 1], p);
      assert s[..|s| - 1][..n] == s[..n];
    }
  }

  /** The prefix kept in the table is the gateway's public prefix exactly for names without
      space or slash at either end. */
  lemma MountPrefixIsPublicPrefixIff(service: string)
    ensures MountPrefix(service) == PluginPaths.Prefix(service) <==> Trim(service, IsSpace) && Trim(service, IsSlash)
  {
    var unspaced := Strip(service, IsSpace);
    var stripped := Strip(unspaced, IsSlash);
    StripShortens(service, IsSpace);
    StripShortens(unspaced, IsSlash);
    assert MountPrefix(service)[5..] == stripped;
    assert PluginPaths.Prefix(service) == "/plg/" + service && PluginPaths.Prefix(service)[5..] == service;
  }

  predicate Differ(m: Mapping, n: Mapping) {
    m.pluginName != n.pluginName && m.serviceName != n.serviceName && m.mountPrefix != n.mountPrefix
  }

  /** The unique columns of the table: no row twice, and no two rows alike in one of them. */
  predicate Unique(rows: seq<Mapping>) {
    && (forall m :: m in rows ==> multiset(rows)[m] == 1)
    && (forall m, n :: m in rows && n in rows && m != n ==> Differ(m, n))
  }

  lemma CountsTwice(rows: seq<Mapping>, i: nat, j: nat)
    requires i < j < |rows| && rows[i] == rows[j]
    ensures multiset(rows)[rows[i]] >= 2
  {
    assert rows == rows[..j] + rows[j..];
    assert rows[..j][i] == rows[i] && rows[j..][0] == rows[i];
    assert rows[i] in multiset(rows[..j]) && rows[i] in multiset(rows[j..]);
  }

  lemma UniqueRowsDiffer(rows: seq<Mapping>, i: nat, j: nat)
    requires Unique(rows) && i < j < |rows|
    ensures Differ(rows[i], rows[j])
  {
    if rows[i] == rows[j] {
      CountsTwice(rows, i, j);
      assert false;
    }
  }

  predicate Mapped(rows: seq<Mapping>, service: string) {
    exists i :: 0 <= i < |rows| && rows[i].serviceName == service
  }

  function NewMapping(service: string): Mapping { Mapping(service, service, MountPrefix(service), true) }

  /** The rows to create: one for every discovered name without a mapping, repeated names included. */
  function Missing(rows: seq<Mapping>, discovered: seq<string>): (r: seq<Mapping>)
    ensures forall m :: m in r ==>
              m.serviceName in discovered && !Mapped(rows, m.serviceName) && m == NewMapping(m.serviceName)
    ensures forall s :: s in discovered && !Mapped(rows, s) ==> NewMapping(s) in r
  {
    if discovered == [] then []
    else
      var last := discovered[|discovered| - 1];
      var before := Missing(rows, discovered[..|discovered| - 1]);
      if Mapped(rows, last) then before else before + [NewMapping(last)]
  }

  /** An enabled row for a discovered service that no row mapped: named after it, under its prefix. */
  predicate IsFresh(m: Mapping, rows: seq<Mapping>, discovered: seq<string>) {
    && m.serviceName in discovered && (forall i :: 0 <= i < |rows| ==> rows[i].serviceName != m.serviceName)
    && m.pluginName == m.serviceName && m.enabled
    && m.mountPrefix == "/plg/" + Strip(Strip(m.serviceName, IsSpace), IsSlash)
  }

  lemma AllAreMapped(rows: seq<Mapping>, discovered: seq<string>, all: seq<Mapping>)
    requires multiset(all) == multiset(rows + Missing(rows, discovered))
    ensures forall m :: m in rows ==> m in all
    ensures forall m :: m in all && m !in rows ==> IsFresh(m, rows, discovered)
    ensures forall s :: s in discovered ==> Mapped(all, s)
  {
    var joined := rows + Missing(rows, discovered);
    forall m ensures m in all <==> m in rows || m in Missing(rows, discovered) {
      assert m in all <==> m in multiset(all);
      assert m in joined <==> m in multiset(joined);
    }
    forall s | s in discovered ensures Mapped(all, s) {
      if Mapped(rows, s) {
        var i :| 0 <= i < |rows| && rows[i].serviceName == s;
        assert rows[i] in all;
      } else {
        assert NewMapping(s) in all;
      }
    }
  }

  predicate InNameOrder(rows: seq<Mapping>) {
    forall i, j :: 0 <= i < j < |rows| ==> StringLe(rows[i].pluginName, rows[j].pluginName)
  }

  /** `sync_plugin_mappings`: the flush refuses a row that repeats a name, a service or a prefix. */
  method SyncPluginMappings(rows: seq<Mapping>, discovered: seq<string>) returns (r: Result<seq<Mapping>, Error>)
    requires Unique(rows)
    ensures r.Err? <==> !Unique(rows + Missing(rows, discovered))
    ensures r.Ok? ==> Unique(r.value) && InNameOrder(r.value)
    ensures r.Ok? ==> multiset(r.value) == multiset(rows + Missing(rows, discovered))
    ensures r.Ok? ==> forall m :: m in rows ==> m in r.value
    ensures r.Ok? ==> forall m :: m in r.value && m !in rows ==> IsFresh(m, rows, discovered)
    ensures r.Ok? ==> forall s :: s in discovered ==> Mapped(r.value, s)
  {
    var services := set i | 0 <= i < |rows| :: rows[i].serviceName;
    var created := [];
    for i := 0 to |discovered|
      invariant created == Missing(rows, discovered[..i])
    {
      assert discovered[..i + 1][..i] == discovered[..i];
      if discovered[i] in services { continue; }
      created := created + [NewMapping(discovered[i])];
    }
    assert discovered[..|discovered|] == discovered;
    var all := rows + created;
    if !Unique(all) { return Err(UniqueViolation); }
    SortedByName(all);
    AllAreMapped(rows, discovered, InOrder(all));
    return Ok(InOrder(all));
  }

  /** Insertion by plugin name */
  function Insert(rows: seq<Mapping>, m: Mapping): seq<Mapping> {
    if rows == [] || StringLe(m.pluginName, rows[0].pluginName) then [m] + rows
    else [rows[0]] + Insert(rows[1..], m)
  }

  function InOrder(rows: seq<Mapping>): seq<Mapping> {
    if rows == [] then [] else Insert(InOrder(rows[1..]), rows[0])
  }

  lemma {:induction false} InsertKeeps(rows: seq<Mapping>, m: Mapping)
    ensures multiset(Insert(rows, m)) == multiset(rows) + multiset{m}
    ensures forall n :: n in Insert(rows, m) ==> n == m || n in rows
  {
    hide StringLe;
    if rows != [] && !StringLe(m.pluginName, rows[0].pluginName) {
      InsertKeeps(rows[1..], m);
      assert rows == [rows[0]] + rows[1..];
    }
  }

  lemma {:induction false} InsertSorts(rows: seq<Mapping>, m: Mapping)
    requires InNameOrder(rows)
    ensures InNameOrder(Insert(rows, m))
  {
    StringOrder();
    hide StringLe;
    if rows != [] && !StringLe(m.pluginName, rows[0].pluginName) {
      InsertSorts(rows[1..], m);
      InsertKeeps(rows[1..], m);
      var rest := Insert(rows[1..], m);
      forall i | 0 <= i < |rest| ensures StringLe(rows[0].pluginName, rest[i].pluginName) {
        assert rest[i] in rest;
      }
    }
  }

  lemma {:induction false} InOrderSorts(rows: seq<Mapping>)
    ensures InNameOrder(InOrder(rows)) && multiset(InOrder(rows)) == multiset(rows)
  {
    if rows != [] {
      InOrderSorts(rows[1..]);
      InsertSorts(InOrder(rows[1..]), rows[0]);
      InsertKeeps(InOrder(rows[1..]), rows[0]);
      assert rows == [rows[0]] + rows[1..];
    }
  }

  lemma SortedByName(rows: seq<Mapping>)
    requires Unique(rows)
    ensures InNameOrder(InOrder(rows)) && multiset(InOrder(rows)) == multiset(rows) && Unique(InOrder(rows))
  {
    InOrderSorts(rows);
    var sorted := InOrder(rows);
    forall m ensures m in sorted <==> m in rows { assert m in sorted <==> m in multiset(sorted); }
  }
}
