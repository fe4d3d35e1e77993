/**
 * `_extract_common_name` (manifest.py): five ranked rules are tried on every stripped
 * identifier; each captured name is stripped and kept unless it looks like a catalog
 * designation, is shorter than three characters or is all digits; the survivors are
 * stable-sorted by rank and the first one is the common name.
 */
module CommonName {
  import opened Wrappers
  import opened Text
  import Sorting

  /** A ranked rule: a regular-expression search returning its first group, and its rank. */
  datatype NameRule = NameRule(matcher: string -> Option<string>, priority: nat)

  /** An entry of `potential_names`. */
  datatype Candidate = Candidate(name: string, priority: nat)

  /** `TAG\s+` matches at index `i` of `s`. */
  predicate TagAt(tag: string, s: string, i: nat)
  {
    i + |tag| < |s| && s[i..i + |tag|] == tag && IsSpace(s[i + |tag|], Python)
  }

  /** The leftmost index at or after `i` where `TAG\s+` matches (the search of `re.search`). */
  function FirstTag(tag: string, s: string, i: nat): (r: Option<nat>)
    ensures r.Some? ==> i <= r.value && TagAt(tag, s, r.value)
    ensures r.Some? ==> forall j :: i <= j < r.value ==> !TagAt(tag, s, j)
    ensures r.None? ==> forall j :: i <= j < |s| ==> !TagAt(tag, s, j)
    decreases |s| - i
  {
    if i >= |s| then None
    else if TagAt(tag, s, i) then Some(i)
    else FirstTag(tag, s, i + 1)
  }

  /** Everything before the first line break (`.*` does not cross a newline). */
  function RestOfLine(s: string): (r: string)
    ensures r <= s && '\n' !in r
    ensures |r| < |s| ==> s[|r|] == '\n'
    decreases |s|
  {
    if |s| == 0 || s[0] == '\n' then "" else [s[0]] + RestOfLine(s[1..])
  }

  /** `re.search(r'TAG\s+(.*)', s).group(1)`: the greedy `\s+` eats all whitespace after the tag. */
  function TaggedMatch(tag: string, s: string): Option<string>
  {
    match FirstTag(tag, s, 0)
    case None => None
    case Some(i) => Some(RestOfLine(TrimStart(s[i + |tag|..], Python)))
  }

  /** A name that starts with the tag and a space yields the rest of its first line. */
  lemma TaggedMatchAtStart(tag: string, rest: string)
    ensures TaggedMatch(tag, tag + " " + rest) == Some(RestOfLine(TrimStart(" " + rest, Python)))
  {
    var s := tag + " " + rest;
    assert s[0..|tag|] == tag && s[|tag|] == ' ';
    assert TagAt(tag, s, 0);
    assert s[|tag|..] == " " + rest;
  }

  /** The rule table: rules 1, 4 and 5 are the given matchers; 2 and 3 are the NAME / ASTERISM rules. */
  function NameRules(namedObject: string -> Option<string>, properName: string -> Option<string>,
                     colloquial: string -> Option<string>): (rules: seq<NameRule>)
    ensures |rules| == 5
    ensures forall k :: 0 <= k < 5 ==> rules[k].priority == k + 1
  {
    [NameRule(namedObject, 1),
     NameRule(s => TaggedMatch("NAME", s), 2),
     NameRule(s => TaggedMatch("ASTERISM", s), 3),
     NameRule(properName, 4),
     NameRule(colloquial, 5)]
  }

  /** The prefixes of the reject pattern `^(M|NGC|…|2MASS)\s*\d+`, matched ignoring case. */
  const RejectPrefixes: seq<string> :=
    ["M", "NGC", "IC", "HD", "HIP", "Sh2", "B", "C", "HCG", "UGC", "Abell", "PGC", "ESO", "LBN", "SAO", "HR", "2MASS"]

  /** The name begins with prefix `p`, optional whitespace and a digit. */
  predicate DesignationWith(cn: string, p: string)
  {
    HasPrefixIgnoringCase(cn, p) &&
    var rest := TrimStart(cn[|p|..], Python);
    |rest| > 0 && IsRegexDigit(rest[0], Python)
  }

  /** The reject pattern matches at the start of the name (some alternative succeeds). */
  predicate LooksLikeDesignation(cn: string)
  {
    DesignationFrom(cn, 0)
  }

  /** Some alternative from the `k`-th on matches. */
  predicate DesignationFrom(cn: string, k: nat)
    decreases |RejectPrefixes| - k
  {
    k < |RejectPrefixes| && (DesignationWith(cn, RejectPrefixes[k]) || DesignationFrom(cn, k + 1))
  }

  /** The three filters a captured name must pass. */
  predicate Accepted(cn: string)
  {
    !LooksLikeDesignation(cn) && |cn| >= 3 && !(|cn| > 0 && AllRegexDigits(cn, Python))
  }

  /** A capture made only of digits of another script, such as "١٢٣٤", is rejected as a number. */
  lemma ArabicIndicNumberRejected()
    ensures !Accepted("\U{661}\U{662}\U{663}\U{664}")
  {
    var cn := "\U{661}\U{662}\U{663}\U{664}";
    assert AllRegexDigits(cn, Python);
  }

  /** What one rule contributes for one stripped identifier: its stripped capture, if accepted. */
  function RuleCandidate(rule: NameRule, s: string): seq<Candidate>
  {
    match rule.matcher(s)
    case None => []
    case Some(g) => if Accepted(Trim(g, Python)) then [Candidate(Trim(g, Python), rule.priority)] else []
  }

  /** The candidates one stripped identifier contributes under `rules[..upto]`, in rule order. */
  function NameCandidates(rules: seq<NameRule>, s: string, upto: nat): seq<Candidate>
    requires upto <= |rules|
    decreases upto
  {
    if upto == 0 then [] else NameCandidates(rules, s, upto - 1) + RuleCandidate(rules[upto - 1], s)
  }

  /** `potential_names` after the given identifiers: `None` skipped, others stripped. */
  function Candidates(rules: seq<NameRule>, names: seq<Option<string>>): seq<Candidate>
    decreases |names|
  {
    if |names| == 0 then []
    else
      Candidates(rules, names[..|names| - 1]) +
      match names[|names| - 1]
      case None => []
      case Some(n) => NameCandidates(rules, Trim(n, Python), |rules|)
  }

  /** Every candidate passed the filters. */
  lemma {:induction false} CandidatesAccepted(rules: seq<NameRule>, names: seq<Option<string>>)
    ensures forall c :: c in Candidates(rules, names) ==> Accepted(c.name)
    decreases |names|
  {
    if |names| > 0 {
      CandidatesAccepted(rules, names[..|names| - 1]);
      if names[|names| - 1].Some? {
        NameCandidatesAccepted(rules, Trim(names[|names| - 1].value, Python), |rules|);
      }
    }
  }

  lemma {:induction false} NameCandidatesAccepted(rules: seq<NameRule>, s: string, upto: nat)
    requires upto <= |rules|
    ensures forall c :: c in NameCandidates(rules, s, upto) ==> Accepted(c.name)
    decreases upto
  {
    if upto > 0 {
      NameCandidatesAccepted(rules, s, upto - 1);
    }
  }

  /** Index `i` holds the smallest priority, and every earlier candidate has a larger one. */
  predicate IsFirstBest(c: seq<Candidate>, i: int)
  {
    0 <= i < |c| &&
    (forall j :: 0 <= j < |c| ==> c[i].priority <= c[j].priority) &&
    (forall j :: 0 <= j < i ==> c[j].priority > c[i].priority)
  }

  function PriorityOf(c: Candidate): nat { c.priority }

  /** The head of the stable sort by priority is the first candidate of smallest priority. */
  lemma SortedHeadIsFirstBest(c: seq<Candidate>)
    requires |c| > 0
    ensures exists i :: IsFirstBest(c, i) && Sorting.SortByKey(c, PriorityOf, Sorting.NatLe)[0] == c[i]
  {
    Sorting.NatLeTotalPreorder();
    var i := Sorting.SortHeadIsFirstMinimal(c, PriorityOf, Sorting.NatLe);
    assert IsFirstBest(c, i);
  }

  /** One pass of the inner loop: run the rule's matcher, strip the capture, apply the filters. */
  method TryRule(rule: NameRule, s: string) returns (found: seq<Candidate>)
    ensures found == RuleCandidate(rule, s)
  {
    found := [];
    var m := rule.matcher(s);
    if m.Some? {
      var cn := Trim(m.value, Python);
      if Accepted(cn) {
        found := [Candidate(cn, rule.priority)];
      }
    }
  }

  /** Taking one more rule appends that rule's candidate. */
  lemma NameCandidatesSnoc(rules: seq<NameRule>, s: string, k: nat)
    requires k < |rules|
    ensures NameCandidates(rules, s, k + 1) == NameCandidates(rules, s, k) + RuleCandidate(rules[k], s)
  {
  }

  /** The candidates of one identifier, collected by the inner loop over the rules. */
  method CollectForName(rules: seq<NameRule>, s: string) returns (found: seq<Candidate>)
    ensures found == NameCandidates(rules, s, |rules|)
  {
    found := [];
    var k := 0;
    while k < |rules|
      invariant 0 <= k <= |rules|
      invariant found == NameCandidates(rules, s, k)
    {
      var more := TryRule(rules[k], s);
      NameCandidatesSnoc(rules, s, k);
      found := found + more;
      k := k + 1;
    }
  }

  /**
   * The common name is absent iff no candidate survives the filters; otherwise it passed the
   * filters and it is the first candidate of the smallest priority number.
   */
  method ExtractCommonName(rules: seq<NameRule>, names: seq<Option<string>>) returns (r: Option<string>)
    ensures r.None? <==> |Candidates(rules, names)| == 0
    ensures r.Some? ==> Accepted(r.value)
    ensures r.Some? ==> exists i :: IsFirstBest(Candidates(rules, names), i) && Candidates(rules, names)[i].name == r.value
  {
    var potential: seq<Candidate> := [];
    var i := 0;
    while i < |names|
      invariant 0 <= i <= |names|
      invariant potential == Candidates(rules, names[..i])
    {
      assert names[..i + 1][..i] == names[..i];
      if names[i].Some? {
        var found := CollectForName(rules, Trim(names[i].value, Python));
        potential := potential + found;
      }
      i := i + 1;
    }
    assert names[..i] == names;
    var sorted := Sorting.SortByKey(potential, PriorityOf, Sorting.NatLe);
    if |sorted| > 0 {
      SortedHeadIsFirstBest(potential);
      CandidatesAccepted(rules, names);
      assert sorted[0] in multiset(potential);
      r := Some(sorted[0].name);
    } else {
      r := None;
    }
  }
}
