/** The byte-wise order of Go strings, and sorting a slice of them in place. */
module StringOrder {
  predicate StrLe(s: string, t: string) {
    s == [] || (t != [] && (s[0] < t[0] || (s[0] == t[0] && StrLe(s[1..], t[1..]))))
  }

  lemma {:induction false} StrLeTotal(s: string, t: string)
    ensures StrLe(s, t) || StrLe(t, s)
  {
    if s != [] && t != [] {
      StrLeTotal(s[1..], t[1..]);
    }
  }

  lemma {:induction false} StrLeAntisymmetric(s: string, t: string)
    requires StrLe(s, t) && StrLe(t, s)
    ensures s == t
  {
    if s != [] {
      StrLeAntisymmetric(s[1..], t[1..]);
      assert s == [s[0]] + s[1..] && t == [t[0]] + t[1..];
    }
  }

  lemma {:induction false} StrLeTransitive(s: string, t: string, u: string)
    requires StrLe(s, t) && StrLe(t, u)
    ensures StrLe(s, u)
  {
    if s != [] && s[0] == t[0] == u[0] {
      StrLeTransitive(s[1..], t[1..], u[1..]);
    }
  }

  ghost predicate Sorted(s: seq<string>) {
    forall i, j :: 0 <= i < j < |s| ==> StrLe(s[i], s[j])
  }

  lemma FirstIsLeast(a: seq<string>, x: string)
    requires Sorted(a) && x in multiset(a)
    ensures a != [] && StrLe(a[0], x)
  {
    var i :| 0 <= i < |a| && a[i] == x;
    StrLeTotal(x, x);
  }

  lemma WithoutFirst(a: seq<string>)
    requires a != []
    ensures multiset(a[1..]) == multiset(a) - multiset{a[0]}
  {
    assert a == [a[0]] + a[1..];
  }

  /** A sorted sequence is determined by how often each string occurs in it. */
  lemma {:induction false} SortedIsCanonical(a: seq<string>, b: seq<string>)
    requires Sorted(a) && Sorted(b) && multiset(a) == multiset(b)
    ensures a == b
  {
    assert |a| == |multiset(a)| == |multiset(b)| == |b|;
    if a != [] {
      assert a[0] in multiset(a) && b[0] in multiset(b);
      FirstIsLeast(a, b[0]);
      FirstIsLeast(b, a[0]);
      StrLeAntisymmetric(a[0], b[0]);
      WithoutFirst(a);
      WithoutFirst(b);
      SortedIsCanonical(a[1..], b[1..]);
      assert a == [a[0]] + a[1..] && b == [b[0]] + b[1..];
    }
  }

  /** Everything before position n is in order, except that position j has still to sink. */
  ghost predicate SortedExcept(s: seq<string>, n: nat, j: nat)
    requires n <= |s|
  {
    forall p, q :: 0 <= p < q < n && q != j ==> StrLe(s[p], s[q])
  }

  lemma SinkStep(s: seq<string>, n: nat, j: nat)
    requires 0 < j < n <= |s| && SortedExcept(s, n, j)
    requires !StrLe(s[j - 1], s[j])
    ensures SortedExcept(s[j - 1 := s[j]][j := s[j - 1]], n, j - 1)
    ensures multiset(s[j - 1 := s[j]][j := s[j - 1]]) == multiset(s)
  {
    StrLeTotal(s[j - 1], s[j]);
  }

  lemma SinkDone(s: seq<string>, n: nat, j: nat)
    requires j < n <= |s| && SortedExcept(s, n, j)
    requires j == 0 || StrLe(s[j - 1], s[j])
    ensures Sorted(s[..n])
  {
    forall p | 0 <= p < j ensures StrLe(s[p], s[j]) {
      if p < j - 1 {
        StrLeTransitive(s[p], s[j - 1], s[j]);
      }
    }
  }

  /** sort.Strings: puts the slice in order in place and loses or invents nothing. */
  method SortStrings(a: array<string>)
    modifies a
    ensures Sorted(a[..])
    ensures multiset(a[..]) == multiset(old(a[..]))
  {
    var i := 0;
    while i < a.Length
      invariant 0 <= i <= a.Length
      invariant Sorted(a[..i])
      invariant multiset(a[..]) == multiset(old(a[..]))
    {
      var j := i;
      assert SortedExcept(a[..], i + 1, i) by {
        assert forall p :: 0 <= p < i ==> a[..][p] == a[..i][p];
      }
      while j > 0 && !StrLe(a[j - 1], a[j])
        invariant 0 <= j <= i
        invariant SortedExcept(a[..], i + 1, j)
        invariant multiset(a[..]) == multiset(old(a[..]))
      {
        ghost var before := a[..];
        SinkStep(before, i + 1, j);
        a[j - 1], a[j] := a[j], a[j - 1];
        assert a[..] == before[j - 1 := before[j]][j := before[j - 1]];
        j := j - 1;
      }
      SinkDone(a[..], i + 1, j);
      i := i + 1;
      assert a[..i] == a[..][..i];
    }
    assert a[..] == a[..a.Length];
  }
}

/** VDIRole rules: apis/rbac/v1/rules.go. */
module Rules {
  import opened Wrappers
  import opened StringOrder

  const VERB_ALL := "*"
  const RESOURCE_ALL := "*"
  const RESOURCE_USERS := "users"
  const RESOURCE_ROLES := "roles"
  const RESOURCE_TEMPLATES := "templates"
  const RESOURCE_SERVICE_ACCOUNTS := "serviceaccounts"
  const NAMESPACE_ALL := "*"

  datatype Rule = Rule(verbs: seq<string>, resources: seq<string>, patterns: seq<string>, namespaces: seq<string>)

  /** regexp.Compile: None for a pattern that does not compile, otherwise its match test. */
  type Compiler = string -> Option<string -> bool>

  predicate HasVerb(r: Rule, verb: string) {
    exists item <- r.verbs :: item == VERB_ALL || item == verb
  }

  predicate HasResourceType(r: Rule, resource: string) {
    exists item <- r.resources :: item == RESOURCE_ALL || item == resource
  }

  predicate HasNamespace(r: Rule, ns: string) {
    exists item <- r.namespaces :: item == NAMESPACE_ALL || item == ns
  }

  /** A pattern that does not compile is skipped, so it matches no name. */
  predicate MatchesResourceName(compile: Compiler, r: Rule, name: string) {
    exists pattern <- r.patterns :: compile(pattern).Some? && compile(pattern).value(name)
  }

  /** The loop at lines 110-115 is out of reach: both lengths are zero or both are not. */
  predicate StrSliceEqual(ss: seq<string>, xx: seq<string>) {
    if |ss| == 0 && |xx| == 0 then true
    else if |ss| != |xx| then false
    else forall i :: 0 <= i < |ss| ==> xx[i] == ss[i]
  }

  /** The same entries, each as often, in every field; the order is immaterial. */
  ghost predicate SameRule(r: Rule, s: Rule) {
    && multiset(r.verbs) == multiset(s.verbs)
    && multiset(r.resources) == multiset(s.resources)
    && multiset(r.patterns) == multiset(s.patterns)
    && multiset(r.namespaces) == multiset(s.namespaces)
  }

  /** A sorted private copy of a slice, as DeepEqual makes of every field. */
  method SortedCopy(s: seq<string>) returns (t: seq<string>)
    ensures Sorted(t) && multiset(t) == multiset(s)
  {
    var a := new string[|s|](i requires 0 <= i < |s| => s[i]);
    assert a[..] == s;
    SortStrings(a);
    t := a[..];
  }

  lemma SortedSlicesEqual(s: seq<string>, t: seq<string>)
    requires Sorted(s) && Sorted(t)
    ensures StrSliceEqual(s, t) <==> multiset(s) == multiset(t)
  {
    if multiset(s) == multiset(t) {
      SortedIsCanonical(s, t);
    }
    if StrSliceEqual(s, t) {
      assert s == t;
    }
  }

  method DeepEqual(r: Rule, rule: Rule) returns (equal: bool)
    ensures equal <==> SameRule(r, rule)
  {
    var thisResources := SortedCopy(r.resources);
    var thisVerbs := SortedCopy(r.verbs);
    var thatResources := SortedCopy(rule.resources);
    var thatVerbs := SortedCopy(rule.verbs);
    var thisPatterns := SortedCopy(r.patterns);
    var thisNamespaces := SortedCopy(r.namespaces);
    var thatPatterns := SortedCopy(rule.patterns);
    var thatNamespaces := SortedCopy(rule.namespaces);
    SortedSlicesEqual(thisResources, thatResources);
    SortedSlicesEqual(thisVerbs, thatVerbs);
    SortedSlicesEqual(thisPatterns, thatPatterns);
    SortedSlicesEqual(thisNamespaces, thatNamespaces);
    equal := StrSliceEqual(thisResources, thatResources)
          && StrSliceEqual(thisVerbs, thatVerbs)
          && StrSliceEqual(thisPatterns, thatPatterns)
          && StrSliceEqual(thisNamespaces, thatNamespaces);
  }

  lemma SameMembers(s: seq<string>, t: seq<string>)
    requires multiset(s) == multiset(t)
    ensures forall x :: x in s <==> x in t
  {
    forall x ensures x in s <==> x in t {
      assert x in s <==> x in multiset(s);
      assert x in t <==> x in multiset(t);
    }
  }

  /** Rules that DeepEqual identifies answer every question alike. */
  lemma SameRuleSameAnswers(compile: Compiler, r: Rule, s: Rule, x: string)
    requires SameRule(r, s)
    ensures HasVerb(r, x) == HasVerb(s, x)
    ensures HasResourceType(r, x) == HasResourceType(s, x)
    ensures HasNamespace(r, x) == HasNamespace(s, x)
    ensures MatchesResourceName(compile, r, x) == MatchesResourceName(compile, s, x)
  {
    SameMembers(r.verbs, s.verbs);
    SameMembers(r.resources, s.resources);
    SameMembers(r.patterns, s.patterns);
    SameMembers(r.namespaces, s.namespaces);
  }
}
