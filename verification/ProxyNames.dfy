/** ensureUniqueProxyNames of internal/sub/clash_service.go. */
module ProxyNames {
  import opened Text
  import opened Values

  function Get(fields: Fields, key: string): Value {
    if key in fields then fields[key] else Null
  }

  /** A failed type assertion to string yields "". */
  function GetText(fields: Fields, key: string): string {
    match Get(fields, key)
    case Str(s) => s
    case _ => ""
  }

  /** fallbackProxyName; show is the %v verb. */
  function FallbackProxyName(show: Value -> string, fields: Fields, idx: nat): (name: string)
    ensures name != ""
  {
    var typ, server := GetText(fields, "type"), GetText(fields, "server");
    if typ != "" && server != "" then typ + "-" + server + "-" + show(Get(fields, "port"))
    else "proxy-" + Itoa(idx + 1)
  }

  /** The name a proxy asks for. */
  function BaseName(show: Value -> string, fields: Fields, idx: nat): (name: string)
    ensures name != ""
  {
    if GetText(fields, "name") == "" then FallbackProxyName(show, fields, idx) else GetText(fields, "name")
  }

  /** The n-th name tried: the base itself, then base-2, base-3 and so on. */
  function Candidate(base: string, n: nat): string {
    if n <= 1 then base else base + "-" + Itoa(n)
  }

  ghost predicate AllTaken(seen: set<string>, base: string, n: nat) {
    forall k :: 1 <= k < n ==> Candidate(base, k) in seen
  }

  lemma CandidatesDiffer(base: string, j: nat, k: nat)
    requires 1 <= j && 1 <= k && Candidate(base, j) == Candidate(base, k)
    ensures j == k
  {
    if j > 1 && k > 1 {
      Cancel(base + "-", base + "-", Itoa(j), Itoa(k));
      ItoaInjective(j, k);
    }
  }

  /** Pigeonhole: n different names that are all taken need n taken names. */
  lemma {:induction false} TakenAtMost(seen: set<string>, base: string, n: nat)
    requires AllTaken(seen, base, n + 1)
    ensures n <= |seen|
  {
    if n > 0 {
      var last := Candidate(base, n);
      forall k | 1 <= k < n ensures Candidate(base, k) in seen - {last} {
        if Candidate(base, k) == last { CandidatesDiffer(base, k, n); }
      }
      TakenAtMost(seen - {last}, base, n - 1);
    }
  }

  /** The number of the first free candidate from n on. */
  function FirstFree(seen: set<string>, base: string, n: nat): (r: nat)
    requires n >= 1 && AllTaken(seen, base, n)
    ensures n <= r <= |seen| + 1 && Candidate(base, r) !in seen && AllTaken(seen, base, r)
    decreases |seen| + 1 - n
  {
    TakenAtMost(seen, base, n - 1);
    if Candidate(base, n) !in seen then n
    else
      TakenAtMost(seen, base, n);
      FirstFree(seen, base, n + 1)
  }

  function NameFor(seen: set<string>, base: string): string {
    Candidate(base, FirstFree(seen, base, 1))
  }

  /** The names given to proxies that ask for these bases, in order. */
  function Names(bases: seq<string>): (names: seq<string>)
    ensures |names| == |bases|
  {
    if bases == [] then []
    else
      var n := |bases| - 1;
      Names(bases[..n]) + [NameFor(Members(Names(bases[..n])), bases[n])]
  }

  class Proxy {
    var fields: Fields

    constructor (fields: Fields)
      ensures this.fields == fields
    {
      this.fields := fields;
    }
  }

  /** The same proxy under another name; no other field changes. */
  function Named(fields: Fields, name: string): Fields {
    fields["name" := Str(name)]
  }

  /** bases are the names the proxies ask for. */
  method EnsureUniqueProxyNames(show: Value -> string, proxies: seq<Proxy>) returns (ghost bases: seq<string>)
    requires forall i, j :: 0 <= i < j < |proxies| ==> proxies[i] != proxies[j]
    modifies proxies
    ensures |bases| == |proxies|
    ensures forall i :: 0 <= i < |proxies| ==>
      && bases[i] == BaseName(show, old(proxies[i].fields), i)
      && proxies[i].fields == Named(old(proxies[i].fields), Names(bases)[i])
  {
    ghost var start := seq(|proxies|, i requires 0 <= i < |proxies| reads proxies => proxies[i].fields);
    bases := seq(|proxies|, i requires 0 <= i < |proxies| => BaseName(show, start[i], i));
    ghost var names := Names(bases);
    ghost var final := seq(|proxies|, i requires 0 <= i < |proxies| => Named(start[i], names[i]));
    var seen: set<string> := {};
    for i := 0 to |proxies|
      invariant seen == Members(names[..i])
      invariant forall j :: 0 <= j < |proxies| ==> Has(proxies[j], if j < i then final[j] else start[j])
    {
      assert Has(proxies[i], start[i]);
      var name := NameProxy(show, proxies[i], i, seen, bases);
      assert Has(proxies[i], final[i]);
      MembersSnoc(names, i);
      seen := seen + {name};
    }
    forall i | 0 <= i < |proxies| ensures proxies[i].fields == final[i] {
      assert Has(proxies[i], final[i]);
    }
  }

  ghost predicate Has(proxy: Proxy, fields: Fields)
    reads proxy
  {
    proxy.fields == fields
  }

  lemma MembersSnoc(xs: seq<string>, i: nat)
    requires i < |xs|
    ensures Members(xs[..i + 1]) == Members(xs[..i]) + {xs[i]}
  {
    assert xs[..i + 1] == xs[..i] + [xs[i]];
  }

  /** One round of the outer loop. */
  method NameProxy(show: Value -> string, proxy: Proxy, i: nat, seen: set<string>, ghost bases: seq<string>)
    returns (name: string)
    requires i < |bases| && bases[i] == BaseName(show, proxy.fields, i) && seen == Members(Names(bases)[..i])
    modifies proxy
    ensures name == Names(bases)[i]
    ensures proxy.fields == Named(old(proxy.fields), name)
  {
    var base := GetText(proxy.fields, "name");
    if base == "" {
      base := FallbackProxyName(show, proxy.fields, i);
    }
    name := FreeName(seen, base);
    NameAt(bases, i);
    proxy.fields := Named(proxy.fields, name);
  }

  /** The unbounded inner loop; it ends because only finitely many names are taken. */
  method FreeName(seen: set<string>, base: string) returns (name: string)
    ensures name == NameFor(seen, base)
  {
    name := base;
    var n := 2;
    while name in seen
      invariant n >= 2 && name == Candidate(base, n - 1) && AllTaken(seen, base, n - 1)
      invariant FirstFree(seen, base, 1) == FirstFree(seen, base, n - 1)
      decreases |seen| + 2 - n
    {
      TakenAtMost(seen, base, n - 1);
      name := base + "-" + Itoa(n);
      n := n + 1;
    }
  }

  // ---------------------------------------------------------------- the results

  lemma {:induction false} NamesPrefix(bases: seq<string>, i: nat)
    requires i <= |bases|
    ensures Names(bases)[..i] == Names(bases[..i])
    decreases |bases|
  {
    var n := |bases| - 1;
    if i < |bases| {
      NamesPrefix(bases[..n], i);
      assert bases[..n][..i] == bases[..i];
      assert Names(bases)[..i] == Names(bases[..n])[..i];
    } else {
      assert bases[..i] == bases && Names(bases)[..i] == Names(bases);
    }
  }

  lemma NameAt(bases: seq<string>, i: nat)
    requires i < |bases|
    ensures Names(bases)[i] == NameFor(Members(Names(bases)[..i]), bases[i])
  {
    NamesPrefix(bases, i);
    NamesPrefix(bases, i + 1);
    assert bases[..i + 1][..i] == bases[..i];
    assert Names(bases)[i] == Names(bases)[..i + 1][i];
  }

  /** No two proxies end up with the same name. */
  lemma {:induction false} NamesDistinct(bases: seq<string>, i: nat, j: nat)
    requires i < j < |bases|
    ensures Names(bases)[i] != Names(bases)[j]
  {
    NameAt(bases, j);
    var earlier := Names(bases)[..j];
    assert earlier[i] == Names(bases)[i] && earlier[i] in Members(earlier);
  }

  /** A nameless proxy is called after its type, server and port, or after its number. */
  lemma FallbackOf(show: Value -> string, typ: string, server: string, port: Value, idx: nat)
    ensures typ != "" && server != "" ==>
      FallbackProxyName(show, map["type" := Str(typ), "server" := Str(server), "port" := port], idx)
        == typ + "-" + server + "-" + show(port)
    ensures FallbackProxyName(show, map["server" := Str(server), "port" := port], idx) == "proxy-" + Itoa(idx + 1)
    ensures FallbackProxyName(show, map["type" := Str(typ), "port" := port], idx) == "proxy-" + Itoa(idx + 1)
  {
  }

  /** Of several proxies with one name the second gets the suffix -2, the next -3, and so
      on, as long as no other proxy has such a name. */
  lemma {:induction false} SameNames(base: string, n: nat)
    ensures forall i :: 0 <= i < n ==>
      Names(Copies(base, n))[i] == if i == 0 then base else base + "-" + Itoa(i + 1)
  {
    if n > 0 {
      assert Copies(base, n)[..n - 1] == Copies(base, n - 1);
      SameNames(base, n - 1);
      NextName(base, Names(Copies(base, n - 1)));
    }
  }

  /** The name after the first so many candidates. */
  lemma NextName(base: string, earlier: seq<string>)
    requires forall i :: 0 <= i < |earlier| ==> earlier[i] == Candidate(base, i + 1)
    ensures NameFor(Members(earlier), base) == Candidate(base, |earlier| + 1)
  {
    var seen := Members(earlier);
    forall k | 1 <= k < |earlier| + 1 ensures Candidate(base, k) in seen {
      assert earlier[k - 1] == Candidate(base, k);
    }
    forall x | x in seen ensures exists k :: 1 <= k < |earlier| + 1 && x == Candidate(base, k) {
      var i :| 0 <= i < |earlier| && earlier[i] == x;
      assert x == Candidate(base, i + 1);
    }
    FirstFreeIs(seen, base, 1, |earlier| + 1);
  }

  function Copies(base: string, n: nat): (r: seq<string>)
    ensures |r| == n && forall i :: 0 <= i < n ==> r[i] == base
  {
    seq(n, i => base)
  }

  lemma {:induction false} FirstFreeIs(seen: set<string>, base: string, from: nat, n: nat)
    requires 1 <= from <= n && AllTaken(seen, base, n)
    requires forall x :: x in seen ==> exists k :: 1 <= k < n && x == Candidate(base, k)
    ensures FirstFree(seen, base, from) == n
    decreases n - from
  {
    if from < n {
      FirstFreeIs(seen, base, from + 1, n);
    } else if Candidate(base, n) in seen {
      var k :| 1 <= k < n && Candidate(base, n) == Candidate(base, k);
      CandidatesDiffer(base, n, k);
    }
  }

  lemma {:induction false} MembersAtMost(xs: seq<string>)
    ensures |Members(xs)| <= |xs|
  {
    if xs != [] {
      var n := |xs| - 1;
      MembersAtMost(xs[..n]);
      assert xs == xs[..n] + [xs[n]];
      assert Members(xs) == Members(xs[..n]) + {xs[n]};
    }
  }

  /** Every name is its base or the base with a suffix of at most i + 1; it is the base
      itself exactly when no earlier proxy took it; and it is never empty. */
  lemma NameKeptOrSuffixed(bases: seq<string>, i: nat)
    requires i < |bases|
    ensures var name := Names(bases)[i];
      && (name == bases[i] <==> bases[i] !in Names(bases)[..i])
      && (exists n :: 1 <= n <= i + 1 && name == Candidate(bases[i], n))
      && (bases[i] != "" ==> name != "")
  {
    NameAt(bases, i);
    var earlier := Names(bases)[..i];
    var seen := Members(earlier);
    MembersAtMost(earlier);
    var n := FirstFree(seen, bases[i], 1);
    assert Names(bases)[i] == Candidate(bases[i], n);
    assert bases[i] in seen <==> bases[i] in earlier;
    assert n > 1 ==> Candidate(bases[i], 1) in seen;
  }
}
