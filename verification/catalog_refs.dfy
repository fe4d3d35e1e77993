/**
 * `_extract_catalog_references` (manifest.py): each identifier of an object is matched against an
 * ordered table of anchored, case-insensitive rules "prefix, optional whitespace, digit run";
 * the ids found are grouped per catalog, in the order catalogs are first met, without repeats.
 */
module CatalogRefs {
  import opened Wrappers
  import opened Text

  /** One catalog rule: `^<prefix>\s*<infix>(\d+)`, or `(\d+)-(\d+)` after the prefix when `twoPart`. */
  datatype Rule = Rule(catalog: string, prefix: string, infix: string, twoPart: bool)

  /** One entry of the result: `{catalog, id, designation}`. */
  datatype Reference = Reference(catalog: string, id: string, designation: string)

  const MessierRule := Rule("Messier", "M", "", false)
  const NgcRule := Rule("NGC", "NGC", "", false)
  const Sh2Rule := Rule("Sh2", "Sh", "2-", false)
  const EsoRule := Rule("ESO", "ESO", "", true)

  /** The rule table, in the order the source lists it (Caldwell is commented out there). */
  const Rules: seq<Rule> := [
    MessierRule,
    NgcRule,
    Rule("IC", "IC", "", false),
    Rule("HD", "HD", "", false),
    Rule("HIP", "HIP", "", false),
    Sh2Rule,
    Rule("Barnard", "B", "", false),
    Rule("HCG", "HCG", "", false),
    Rule("UGC", "UGC", "", false),
    Rule("Abell", "Abell", "", false),
    Rule("PGC", "PGC", "", false),
    EsoRule,
    Rule("LBN", "LBN", "", false),
    Rule("SAO", "SAO", "", false),
    Rule("HR", "HR", "", false),
    Rule("2MASS", "2MASS", "J", false)
  ]

  /** The longest run of digits at the start of `s` (a greedy `\d+`, with Python's Unicode digits). */
  function LeadingDigits(s: string): (d: string)
    ensures |d| <= |s| && d == s[..|d|] && AllRegexDigits(d, Python)
    ensures |d| < |s| ==> !IsRegexDigit(s[|d|], Python)
    decreases |s|
  {
    if |s| > 0 && IsRegexDigit(s[0], Python) then [s[0]] + LeadingDigits(s[1..]) else ""
  }

  /** The text after `^<prefix>\s*<infix>`, if the name starts that way (ignoring case). */
  function AfterPrefix(r: Rule, s: string): Option<string>
  {
    if !HasPrefixIgnoringCase(s, r.prefix) then None
    else
      var rest := TrimStart(s[|r.prefix|..], Python);
      if HasPrefixIgnoringCase(rest, r.infix) then Some(rest[|r.infix|..]) else None
  }

  /** The captured id at the start of `t`: one digit run, or two joined by "-" when `twoPart`. */
  function ReadId(twoPart: bool, t: string): Option<string>
  {
    var d := LeadingDigits(t);
    if d == "" then None
    else if !twoPart then Some(d)
    else
      var u := t[|d|..];
      if |u| > 0 && u[0] == '-' && LeadingDigits(u[1..]) != "" then Some(d + "-" + LeadingDigits(u[1..]))
      else None
  }

  /** The id captured by rule `r` on the (already stripped) name `s`, if the rule matches. */
  function MatchRule(r: Rule, s: string): Option<string>
  {
    match AfterPrefix(r, s)
    case None => None
    case Some(t) => ReadId(r.twoPart, t)
  }

  /**
   * A match is anchored at the start of the name, case-insensitively; a one-part id is one
   * non-empty run of (Unicode) digits, and the two-part (ESO) id is two such runs joined by "-".
   */
  lemma MatchRuleShape(r: Rule, s: string)
    requires MatchRule(r, s).Some?
    ensures HasPrefixIgnoringCase(s, r.prefix)
    ensures var id := MatchRule(r, s).value;
      !r.twoPart ==> |id| > 0 && AllRegexDigits(id, Python)
    ensures var id := MatchRule(r, s).value;
      r.twoPart ==> exists k :: 0 < k < |id| - 1 && id[k] == '-' && AllRegexDigits(id[..k], Python) && AllRegexDigits(id[k + 1..], Python)
  {
    var t := AfterPrefix(r, s).value;
    if r.twoPart {
      var d := LeadingDigits(t);
      var e := LeadingDigits(t[|d|..][1..]);
      var id := d + "-" + e;
      assert id[..|d|] == d && id[|d| + 1..] == e;
      assert id[|d|] == '-';
    }
  }

  lemma AfterMessierPrefix()
    ensures AfterPrefix(MessierRule, "M 31") == Some("31")
    ensures AfterPrefix(MessierRule, "NGC224") == None
  {
    assert "M 31"[1..] == " 31";
    assert " 31"[1..] == "31";
    assert TrimStart(" 31", Python) == "31";
    assert LowerChar("NGC224"[0]) != LowerChar("M"[0]);
  }

  lemma ReadTwoDigits()
    ensures ReadId(false, "31") == Some("31")
  {
    assert "31"[1..] == "1" && "1"[1..] == "";
    assert LeadingDigits("31") == "31";
  }

  /** "M 31" is Messier 31; "NGC224" is not a Messier identifier. */
  lemma MessierExamples()
    ensures MatchRule(MessierRule, "M 31") == Some("31")
    ensures MatchRule(MessierRule, "NGC224") == None
  {
    AfterMessierPrefix();
    ReadTwoDigits();
  }

  /** Python's `\d` takes the digits of any script: "M ٣١" (Arabic-Indic three, one) is Messier "٣١". */
  lemma MessierArabicIndic()
    ensures MatchRule(MessierRule, "M \U{663}\U{661}") == Some("\U{663}\U{661}")
  {
    var d := "\U{663}\U{661}";
    assert "M \U{663}\U{661}"[1..] == " " + d;
    assert (" " + d)[1..] == d;
    assert TrimStart(" " + d, Python) == d;
    ArabicIndicDigit();
    assert IsRegexDigit(d[1], Python);
    assert d[1..] == "\U{661}" && "\U{661}"[1..] == "";
    assert LeadingDigits(d) == d;
  }

  lemma AfterEsoPrefixTwoGroups()
    ensures AfterPrefix(EsoRule, "ESO 123-16") == Some("123-16")
  {
    ExactPrefixIgnoringCase("ESO 123-16", "ESO");
    assert "ESO 123-16"[3..] == " 123-16";
    assert " 123-16"[0] == ' ' && " 123-16"[1..] == "123-16";
    assert !IsSpace("123-16"[0], Python);
    assert TrimStart("123-16", Python) == "123-16";
    assert TrimStart(" 123-16", Python) == "123-16";
    ExactPrefixIgnoringCase("123-16", "");
  }

  lemma AfterEsoPrefixOneGroup()
    ensures AfterPrefix(EsoRule, "ESO 123") == Some("123")
  {
    ExactPrefixIgnoringCase("ESO 123", "ESO");
    assert "ESO 123"[3..] == " 123" && " 123"[1..] == "123";
    assert TrimStart(" 123", Python) == "123";
    ExactPrefixIgnoringCase("123", "");
  }

  lemma ReadEsoIds()
    ensures ReadId(true, "123-16") == Some("123-16")
    ensures ReadId(true, "123") == None
  {
    assert "123-16"[1..] == "23-16" && "23-16"[1..] == "3-16" && "3-16"[1..] == "-16";
    assert LeadingDigits("123-16") == "123";
    assert "123-16"[3..] == "-16" && "-16"[1..] == "16";
    assert "16"[1..] == "6" && "6"[1..] == "";
    assert LeadingDigits("16") == "16";
    assert "123" + "-" + "16" == "123-16";
    assert "123"[1..] == "23" && "23"[1..] == "3" && "3"[1..] == "";
    assert LeadingDigits("123") == "123";
    assert "123"[3..] == "";
  }

  /** The ESO id joins its two digit groups; one group alone is no match. */
  lemma EsoExamples()
    ensures MatchRule(EsoRule, "ESO 123-16") == Some("123-16")
    ensures MatchRule(EsoRule, "ESO 123") == None
  {
    AfterEsoPrefixTwoGroups();
    AfterEsoPrefixOneGroup();
    ReadEsoIds();
  }

  /** The (catalog, id) pairs the rules `Rules[..upto]` find in one stripped name. */
  ghost function NameMatches(rules: seq<Rule>, s: string, upto: nat): set<(string, string)>
    requires upto <= |rules|
  {
    if upto == 0 then {} else NameMatches(rules, s, upto - 1) + RuleFinds(rules[upto - 1], s)
  }

  /** Every (catalog, id) pair found in the names: `None` names are skipped, others stripped. */
  ghost function AllMatches(names: seq<Option<string>>): set<(string, string)>
    decreases |names|
  {
    if |names| == 0 then {}
    else
      AllMatches(names[..|names| - 1]) +
      match names[|names| - 1]
      case None => {}
      case Some(n) => NameMatches(Rules, Trim(n, Python), |Rules|)
  }

  ghost function DictPairs(ids: map<string, seq<string>>): set<(string, string)>
  {
    set c, x | c in ids && x in ids[c] :: (c, x)
  }

  ghost function RefPairs(refs: seq<Reference>): set<(string, string)>
  {
    set i | 0 <= i < |refs| :: (refs[i].catalog, refs[i].id)
  }

  predicate DistinctPairs(refs: seq<Reference>)
  {
    forall i, j :: 0 <= i < j < |refs| ==> refs[i].catalog != refs[j].catalog || refs[i].id != refs[j].id
  }

  predicate Distinct(s: seq<string>)
  {
    forall i, j :: 0 <= i < j < |s| ==> s[i] != s[j]
  }

  /** The dictionary of the source: keys in insertion order, each holding its ids without repeats. */
  ghost predicate GoodDict(keys: seq<string>, ids: map<string, seq<string>>)
  {
    Distinct(keys) && (forall c :: c in ids <==> c in keys) && (forall c :: c in ids ==> Distinct(ids[c]))
  }

  /** The entries of one catalog, in id order. */
  function Expand(c: string, xs: seq<string>): (r: seq<Reference>)
    ensures |r| == |xs|
  {
    seq(|xs|, j requires 0 <= j < |xs| => Reference(c, xs[j], c + " " + xs[j]))
  }

  /** The result list: catalogs in key order, each with its ids. */
  function Flatten(keys: seq<string>, ids: map<string, seq<string>>): seq<Reference>
    requires forall c :: c in keys ==> c in ids
    decreases |keys|
  {
    if |keys| == 0 then []
    else Flatten(keys[..|keys| - 1], ids) + Expand(keys[|keys| - 1], ids[keys[|keys| - 1]])
  }

  lemma RefPairsAppend(a: seq<Reference>, b: seq<Reference>)
    ensures RefPairs(a + b) == RefPairs(a) + RefPairs(b)
  {
    var r := a + b;
    forall p | p in RefPairs(r) ensures p in RefPairs(a) + RefPairs(b) {
      var i :| 0 <= i < |r| && p == (r[i].catalog, r[i].id);
      if i < |a| { assert r[i] == a[i]; } else { assert r[i] == b[i - |a|]; }
    }
    forall p | p in RefPairs(a) + RefPairs(b) ensures p in RefPairs(r) {
      if p in RefPairs(a) {
        var i :| 0 <= i < |a| && p == (a[i].catalog, a[i].id);
        assert r[i] == a[i];
      } else {
        var i :| 0 <= i < |b| && p == (b[i].catalog, b[i].id);
        assert r[|a| + i] == b[i];
      }
    }
  }

  lemma ExpandPairs(c: string, xs: seq<string>)
    ensures RefPairs(Expand(c, xs)) == set x | x in xs :: (c, x)
  {
    var b := Expand(c, xs);
    forall p | p in RefPairs(b) ensures p in set x | x in xs :: (c, x) {
      var i :| 0 <= i < |b| && p == (b[i].catalog, b[i].id);
      assert xs[i] in xs;
    }
    forall p | p in set x | x in xs :: (c, x) ensures p in RefPairs(b) {
      var x :| x in xs && p == (c, x);
      var i :| 0 <= i < |xs| && xs[i] == x;
      assert b[i].catalog == c && b[i].id == x;
    }
  }

  /** The flattened dictionary lists exactly its (catalog, id) pairs. */
  lemma {:induction false} FlattenPairs(keys: seq<string>, ids: map<string, seq<string>>)
    requires forall c :: c in keys ==> c in ids
    ensures RefPairs(Flatten(keys, ids)) == set c, x | c in keys && x in ids[c] :: (c, x)
    decreases |keys|
  {
    if |keys| > 0 {
      var init := keys[..|keys| - 1];
      var c := keys[|keys| - 1];
      FlattenPairs(init, ids);
      RefPairsAppend(Flatten(init, ids), Expand(c, ids[c]));
      ExpandPairs(c, ids[c]);
    }
  }

  lemma {:induction false} FlattenShape(keys: seq<string>, ids: map<string, seq<string>>)
    requires forall c :: c in keys ==> c in ids
    ensures forall e :: e in Flatten(keys, ids) ==> e.catalog in keys && e.designation == e.catalog + " " + e.id
    decreases |keys|
  {
    if |keys| > 0 {
      FlattenShape(keys[..|keys| - 1], ids);
    }
  }

  /** With distinct keys and distinct ids per key, no pair is listed twice. */
  lemma {:induction false} FlattenDistinct(keys: seq<string>, ids: map<string, seq<string>>)
    requires forall c :: c in keys ==> c in ids
    requires Distinct(keys) && forall c :: c in ids ==> Distinct(ids[c])
    ensures DistinctPairs(Flatten(keys, ids))
    decreases |keys|
  {
    if |keys| > 0 {
      var init := keys[..|keys| - 1];
      var c := keys[|keys| - 1];
      FlattenDistinct(init, ids);
      FlattenShape(init, ids);
      var a := Flatten(init, ids);
      var b := Expand(c, ids[c]);
      var r := a + b;
      forall i, j | 0 <= i < j < |r| ensures r[i].catalog != r[j].catalog || r[i].id != r[j].id {
        if j < |a| {
          assert r[i] == a[i] && r[j] == a[j];
        } else if i >= |a| {
          assert r[i] == b[i - |a|] && r[j] == b[j - |a|];
        } else {
          assert r[i] == a[i] && a[i] in a;
          assert r[j].catalog == c;
        }
      }
    }
  }

  lemma AddPair(ids: map<string, seq<string>>, c: string, x: string)
    requires c in ids
    ensures DictPairs(ids[c := if x in ids[c] then ids[c] else ids[c] + [x]]) == DictPairs(ids) + {(c, x)}
  {
    var ids' := ids[c := if x in ids[c] then ids[c] else ids[c] + [x]];
    forall p | p in DictPairs(ids') ensures p in DictPairs(ids) + {(c, x)} {
      var d, y :| d in ids' && y in ids'[d] && p == (d, y);
      if d == c && y != x { assert y in ids[c]; }
    }
    forall p | p in DictPairs(ids) + {(c, x)} ensures p in DictPairs(ids') {
      if p != (c, x) {
        var d, y :| d in ids && y in ids[d] && p == (d, y);
        assert y in ids'[d];
      } else {
        assert x in ids'[c];
      }
    }
  }

  /** `catalogs.setdefault(c, [])` followed by "append `x` unless already listed". */
  method RecordId(keys0: seq<string>, ids0: map<string, seq<string>>, c: string, x: string)
    returns (keys: seq<string>, ids: map<string, seq<string>>)
    requires GoodDict(keys0, ids0)
    ensures GoodDict(keys, ids)
    ensures DictPairs(ids) == DictPairs(ids0) + {(c, x)}
  {
    keys, ids := keys0, ids0;
    if c !in ids {
      assert DictPairs(ids[c := []]) == DictPairs(ids);
      keys := keys + [c];
      ids := ids[c := []];
    }
    AddPair(ids, c, x);
    if x !in ids[c] {
      ids := ids[c := ids[c] + [x]];
    }
  }

  /** What one rule finds in one stripped name, as a set of (catalog, id) pairs. */
  function RuleFinds(rule: Rule, s: string): set<(string, string)>
  {
    match MatchRule(rule, s)
    case None => {}
    case Some(id) => {(rule.catalog, id)}
  }

  /** Tries one rule on one stripped name and records the id it captures, if any. */
  method RecordRule(rule: Rule, keys0: seq<string>, ids0: map<string, seq<string>>, s: string)
    returns (keys: seq<string>, ids: map<string, seq<string>>)
    requires GoodDict(keys0, ids0)
    ensures GoodDict(keys, ids)
    ensures DictPairs(ids) == DictPairs(ids0) + RuleFinds(rule, s)
  {
    keys, ids := keys0, ids0;
    var m := MatchRule(rule, s);
    if m.Some? {
      keys, ids := RecordId(keys, ids, rule.catalog, m.value);
    }
  }

  /** Recording the finds of one more rule extends the pairs found by the rules before it. */
  lemma MatchesStep(rules: seq<Rule>, s: string, k: nat, start: set<(string, string)>,
                    before: set<(string, string)>, after: set<(string, string)>)
    requires k < |rules|
    requires before == start + NameMatches(rules, s, k)
    requires after == before + RuleFinds(rules[k], s)
    ensures after == start + NameMatches(rules, s, k + 1)
  {
  }

  /** Applies each rule of the table to one stripped name, recording each id found. */
  method RecordMatches(rules: seq<Rule>, keys0: seq<string>, ids0: map<string, seq<string>>, s: string)
    returns (keys: seq<string>, ids: map<string, seq<string>>)
    requires GoodDict(keys0, ids0)
    ensures GoodDict(keys, ids)
    ensures DictPairs(ids) == DictPairs(ids0) + NameMatches(rules, s, |rules|)
  {
    keys, ids := keys0, ids0;
    var k := 0;
    while k < |rules|
      invariant 0 <= k <= |rules|
      invariant GoodDict(keys, ids)
      invariant DictPairs(ids) == DictPairs(ids0) + NameMatches(rules, s, k)
    {
      ghost var pairs := DictPairs(ids);
      keys, ids := RecordRule(rules[k], keys, ids, s);
      MatchesStep(rules, s, k, DictPairs(ids0), pairs, DictPairs(ids));
      k := k + 1;
    }
  }

  /** Lists the dictionary as entries, catalogs in insertion order. */
  method FlattenDict(keys: seq<string>, ids: map<string, seq<string>>) returns (refs: seq<Reference>)
    requires forall c :: c in keys ==> c in ids
    ensures refs == Flatten(keys, ids)
  {
    refs := [];
    var n := 0;
    while n < |keys|
      invariant 0 <= n <= |keys|
      invariant refs == Flatten(keys[..n], ids)
    {
      var c := keys[n];
      var xs := ids[c];
      var j := 0;
      while j < |xs|
        invariant 0 <= j <= |xs|
        invariant refs == Flatten(keys[..n], ids) + Expand(c, xs[..j])
      {
        refs := refs + [Reference(c, xs[j], c + " " + xs[j])];
        j := j + 1;
      }
      assert xs[..j] == xs;
      assert keys[..n + 1][..n] == keys[..n];
      n := n + 1;
    }
    assert keys[..n] == keys;
  }

  /**
   * The extraction: every entry's designation is its catalog, a space and its id; no
   * (catalog, id) pair is listed twice; and the pairs listed are exactly those the rules find.
   */
  method ExtractCatalogReferences(names: seq<Option<string>>) returns (refs: seq<Reference>)
    ensures forall e :: e in refs ==> e.designation == e.catalog + " " + e.id
    ensures DistinctPairs(refs)
    ensures RefPairs(refs) == AllMatches(names)
  {
    var keys: seq<string> := [];
    var ids: map<string, seq<string>> := map[];
    var i := 0;
    while i < |names|
      invariant 0 <= i <= |names|
      invariant GoodDict(keys, ids)
      invariant DictPairs(ids) == AllMatches(names[..i])
    {
      assert names[..i + 1][..i] == names[..i];
      if names[i].Some? {
        keys, ids := RecordMatches(Rules, keys, ids, Trim(names[i].value, Python));
      }
      i := i + 1;
    }
    assert names[..i] == names;
    refs := FlattenDict(keys, ids);
    FlattenPairs(keys, ids);
    FlattenShape(keys, ids);
    FlattenDistinct(keys, ids);
    assert (set c, x | c in keys && x in ids[c] :: (c, x)) == DictPairs(ids);
  }
}
