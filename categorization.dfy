/**
 * The keyword categorisation engine shared by the calendar and Notion
 * analyzers: three read-only rule maps, each searched first-match over its
 * keys in ascending byte order, where a rule matches a title when one of
 * its keywords, lower-cased, is a substring of the lower-cased title.
 * Loading the maps from YAML is not part of this model: they are inputs.
 */
module CategorizationConfig {
  import opened Wrappers
  import opened Text

  datatype CategoryDefinition = CategoryDefinition(name: string, keywords: seq<string>)

  /** An event rule; its `category` field is carried but never consulted. */
  datatype EventRule = EventRule(keywords: seq<string>, category: string)

  datatype NotionRule = NotionRule(keywords: seq<string>)

  datatype Config = Config(
    categories: map<string, CategoryDefinition>,
    eventCategories: map<string, EventRule>,
    notionCategories: map<string, NotionRule>)

  /** The result when no rule matches. */
  const Fallback := "other"

  // ---------------------------------------------------------------------
  // Matching one rule
  // ---------------------------------------------------------------------

  /** `strings.Contains(strings.ToLower(title), strings.ToLower(keyword))`. */
  predicate KeywordHit(title: string, keyword: string)
  {
    Contains(Lower(title), Lower(keyword))
  }

  /** Some keyword of the rule hits the title. */
  predicate Matches(title: string, keywords: seq<string>)
  {
    exists i :: 0 <= i < |keywords| && KeywordHit(title, keywords[i])
  }

  /** The inner keyword loop with its early return. */
  function AnyKeyword(title: string, keywords: seq<string>): (b: bool)
    ensures b <==> Matches(title, keywords)
  {
    if keywords == [] then false
    else if KeywordHit(title, keywords[0]) then true
    else
      assert forall i :: 1 <= i < |keywords| ==> keywords[i] == keywords[1..][i - 1];
      AnyKeyword(title, keywords[1..])
  }

  /** A rule holding the empty keyword matches every title. */
  lemma EmptyKeywordMatchesAll(title: string, keywords: seq<string>)
    requires "" in keywords
    ensures AnyKeyword(title, keywords)
  {
    var i :| 0 <= i < |keywords| && keywords[i] == "";
    ContainsEmpty(Lower(title));
    assert Lower("") == "";
    assert KeywordHit(title, keywords[i]);
  }

  /** Matching ignores the case of the title. */
  lemma MatchesIgnoresCase(title: string, keywords: seq<string>)
    ensures AnyKeyword(Lower(title), keywords) == AnyKeyword(title, keywords)
  {
    LowerIdempotent(title);
    assert forall i :: 0 <= i < |keywords| ==>
      KeywordHit(Lower(title), keywords[i]) == KeywordHit(title, keywords[i]);
  }

  // ---------------------------------------------------------------------
  // First match over sorted keys
  // ---------------------------------------------------------------------

  /** The keyword lists of a rule map: all a search ever reads. */
  function CategoryKeywords(m: map<string, CategoryDefinition>): (r: map<string, seq<string>>)
    ensures r.Keys == m.Keys && forall k :: k in m ==> r[k] == m[k].keywords
  {
    map k | k in m :: m[k].keywords
  }

  function EventKeywords(m: map<string, EventRule>): (r: map<string, seq<string>>)
    ensures r.Keys == m.Keys && forall k :: k in m ==> r[k] == m[k].keywords
  {
    map k | k in m :: m[k].keywords
  }

  function NotionKeywords(m: map<string, NotionRule>): (r: map<string, seq<string>>)
    ensures r.Keys == m.Keys && forall k :: k in m ==> r[k] == m[k].keywords
  {
    map k | k in m :: m[k].keywords
  }

  /** The first of `keys`, in order, whose rule matches. */
  function FirstMatch(keys: seq<string>, rules: map<string, seq<string>>, title: string): (r: Option<string>)
    requires forall i :: 0 <= i < |keys| ==> keys[i] in rules
    ensures r.Some? ==>
      exists i ::
        0 <= i < |keys| && keys[i] == r.value && AnyKeyword(title, rules[keys[i]]) &&
        forall j :: 0 <= j < i ==> !AnyKeyword(title, rules[keys[j]])
    ensures r.None? <==> forall i :: 0 <= i < |keys| ==> !AnyKeyword(title, rules[keys[i]])
  {
    if keys == [] then None
    else if AnyKeyword(title, rules[keys[0]]) then Some(keys[0])
    else
      var r := FirstMatch(keys[1..], rules, title);
      assert forall i :: 1 <= i < |keys| ==> keys[i] == keys[1..][i - 1];
      r
  }

  /** Collect the keys, `sort.Strings` them, and return the first whose rule matches. */
  function Search(rules: map<string, seq<string>>, title: string): (r: Option<string>)
    ensures r.Some? ==> r.value in rules && AnyKeyword(title, rules[r.value])
  {
    FirstMatch(SortedKeys(rules.Keys), rules, title)
  }

  /**
   * The search depends only on the map's contents, not on any iteration
   * order: it finds the least key (by Go's string order) whose rule
   * matches, and nothing exactly when no rule matches.
   */
  lemma SearchIsLeastMatch(rules: map<string, seq<string>>, title: string)
    ensures Search(rules, title).Some? ==>
      var k := Search(rules, title).value;
      forall k' :: k' in rules && Less(k', k) ==> !AnyKeyword(title, rules[k'])
    ensures Search(rules, title).None? <==> forall k :: k in rules ==> !AnyKeyword(title, rules[k])
  {
    var keys := SortedKeys(rules.Keys);
    var r := Search(rules, title);
    if r.Some? {
      SearchFoundIsLeast(rules, title, r.value);
    } else {
      forall k | k in rules ensures !AnyKeyword(title, rules[k]) {
        var j :| 0 <= j < |keys| && keys[j] == k;
      }
    }
  }

  lemma SearchFoundIsLeast(rules: map<string, seq<string>>, title: string, k: string)
    requires Search(rules, title) == Some(k)
    ensures forall k' :: k' in rules && Less(k', k) ==> !AnyKeyword(title, rules[k'])
  {
    var keys := SortedKeys(rules.Keys);
    SortedKeysAscending(rules.Keys);
    FirstMatchIsLeast(keys, rules, title, k);
    forall k' | k' in rules && Less(k', k) ensures !AnyKeyword(title, rules[k']) {
      assert k' in keys;
    }
  }

  /** Over ascending keys, no key below the first match matches. */
  lemma {:induction false} FirstMatchIsLeast(keys: seq<string>, rules: map<string, seq<string>>, title: string, k: string)
    requires forall i :: 0 <= i < |keys| ==> keys[i] in rules
    requires StrictlyAscending(keys)
    requires FirstMatch(keys, rules, title) == Some(k)
    ensures forall j :: 0 <= j < |keys| && Less(keys[j], k) ==> !AnyKeyword(title, rules[keys[j]])
    decreases |keys|
  {
    if AnyKeyword(title, rules[keys[0]]) {
      forall j | 0 <= j < |keys| ensures !Less(keys[j], k) {
        if j == 0 { LessIrreflexive(k); } else { LessAsymmetric(k, keys[j]); }
      }
    } else {
      FirstMatchIsLeast(keys[1..], rules, title, k);
      forall j | 0 < j < |keys| && Less(keys[j], k) ensures !AnyKeyword(title, rules[keys[j]]) {
        assert keys[j] == keys[1..][j - 1];
      }
    }
  }

  /** The search result does not change when the title's case does. */
  lemma SearchIgnoresCase(rules: map<string, seq<string>>, title: string)
    ensures Search(rules, Lower(title)) == Search(rules, title)
  {
    forall k | k in rules ensures AnyKeyword(Lower(title), rules[k]) == AnyKeyword(title, rules[k]) {
      MatchesIgnoresCase(title, rules[k]);
    }
    FirstMatchSameHits(SortedKeys(rules.Keys), rules, Lower(title), title);
  }

  lemma {:induction false} FirstMatchSameHits(keys: seq<string>, rules: map<string, seq<string>>, t1: string, t2: string)
    requires forall i :: 0 <= i < |keys| ==> keys[i] in rules
    requires forall k :: k in rules ==> AnyKeyword(t1, rules[k]) == AnyKeyword(t2, rules[k])
    ensures FirstMatch(keys, rules, t1) == FirstMatch(keys, rules, t2)
    decreases |keys|
  {
    if keys != [] {
      FirstMatchSameHits(keys[1..], rules, t1, t2);
    }
  }

  function OrFallback(r: Option<string>): string
  {
    match r
    case Some(k) => k
    case None => Fallback
  }

  // ---------------------------------------------------------------------
  // The four lookups
  // ---------------------------------------------------------------------

  /**
   * `CategorizeByKeywords`: the first matching event rule's KEY, else the
   * first matching general category's key, else "other".
   */
  function CategorizeByKeywords(c: Config, title: string): (r: string)
    ensures r in c.eventCategories || r in c.categories || r == Fallback
    ensures (exists k :: k in c.eventCategories && AnyKeyword(title, c.eventCategories[k].keywords)) ==>
      r in c.eventCategories && AnyKeyword(title, c.eventCategories[r].keywords)
  {
    var t := Lower(title);
    MatchesIgnoresCaseAll(EventKeywords(c.eventCategories), title);
    SearchIsLeastMatch(EventKeywords(c.eventCategories), t);
    match Search(EventKeywords(c.eventCategories), t)
    case Some(k) => k
    case None => OrFallback(Search(CategoryKeywords(c.categories), t))
  }

  lemma MatchesIgnoresCaseAll(rules: map<string, seq<string>>, title: string)
    ensures forall k :: k in rules ==> AnyKeyword(Lower(title), rules[k]) == AnyKeyword(title, rules[k])
  {
    forall k | k in rules ensures AnyKeyword(Lower(title), rules[k]) == AnyKeyword(title, rules[k]) {
      MatchesIgnoresCase(title, rules[k]);
    }
  }

  /** The full rule of `CategorizeByKeywords`, independent of map iteration order. */
  lemma CategorizeByKeywordsSpec(c: Config, title: string)
    ensures var r := CategorizeByKeywords(c, title);
      var ev := c.eventCategories;
      var cats := c.categories;
      if exists k :: k in ev && AnyKeyword(title, ev[k].keywords) then
        r in ev && AnyKeyword(title, ev[r].keywords) &&
        forall k :: k in ev && Less(k, r) ==> !AnyKeyword(title, ev[k].keywords)
      else if exists k :: k in cats && AnyKeyword(title, cats[k].keywords) then
        r in cats && AnyKeyword(title, cats[r].keywords) &&
        forall k :: k in cats && Less(k, r) ==> !AnyKeyword(title, cats[k].keywords)
      else
        r == Fallback
  {
    var t := Lower(title);
    var ev := EventKeywords(c.eventCategories);
    var cats := CategoryKeywords(c.categories);
    MatchesIgnoresCaseAll(ev, title);
    MatchesIgnoresCaseAll(cats, title);
    SearchIsLeastMatch(ev, t);
    SearchIsLeastMatch(cats, t);
  }

  /** The event rule's `category` field never affects the result: only the map key is returned. */
  lemma RuleCategoryIgnored(c: Config, k: string, other: string, title: string)
    requires k in c.eventCategories
    ensures var c' := c.(eventCategories := c.eventCategories[k := EventRule(c.eventCategories[k].keywords, other)]);
      CategorizeByKeywords(c', title) == CategorizeByKeywords(c, title)
  {
    var c' := c.(eventCategories := c.eventCategories[k := EventRule(c.eventCategories[k].keywords, other)]);
    assert EventKeywords(c'.eventCategories) == EventKeywords(c.eventCategories);
  }

  /** `CategorizeByKeywords` gives the same answer for a title and its lower-case form. */
  lemma CategorizeIgnoresCase(c: Config, title: string)
    ensures CategorizeByKeywords(c, Lower(title)) == CategorizeByKeywords(c, title)
  {
    LowerIdempotent(title);
  }

  /** `GetCategoryTime`: the first matching general category, reading no other map. */
  function GetCategoryTime(c: Config, title: string): (r: string)
    ensures r in c.categories || r == Fallback
  {
    OrFallback(Search(CategoryKeywords(c.categories), Lower(title)))
  }

  lemma GetCategoryTimeSpec(c: Config, title: string)
    ensures var r := GetCategoryTime(c, title);
      var cats := c.categories;
      if exists k :: k in cats && AnyKeyword(title, cats[k].keywords) then
        r in cats && AnyKeyword(title, cats[r].keywords) &&
        forall k :: k in cats && Less(k, r) ==> !AnyKeyword(title, cats[k].keywords)
      else
        r == Fallback
  {
    var cats := CategoryKeywords(c.categories);
    MatchesIgnoresCaseAll(cats, title);
    SearchIsLeastMatch(cats, Lower(title));
  }

  /** `CategorizeNotionPage`: the first matching Notion rule, reading no other map. */
  function CategorizeNotionPage(c: Config, title: string): (r: string)
    ensures r in c.notionCategories || r == Fallback
  {
    OrFallback(Search(NotionKeywords(c.notionCategories), Lower(title)))
  }

  lemma CategorizeNotionPageSpec(c: Config, title: string)
    ensures var r := CategorizeNotionPage(c, title);
      var ns := c.notionCategories;
      if exists k :: k in ns && AnyKeyword(title, ns[k].keywords) then
        r in ns && AnyKeyword(title, ns[r].keywords) &&
        forall k :: k in ns && Less(k, r) ==> !AnyKeyword(title, ns[k].keywords)
      else
        r == Fallback
  {
    var ns := NotionKeywords(c.notionCategories);
    MatchesIgnoresCaseAll(ns, title);
    SearchIsLeastMatch(ns, Lower(title));
  }

  // ---------------------------------------------------------------------
  // Display names
  // ---------------------------------------------------------------------

  /** A rune that ends a word for `strings.Title` (ASCII: anything but letters, digits and '_'). */
  predicate IsSeparator(c: char)
  {
    !(('a' <= c <= 'z') || ('A' <= c <= 'Z') || ('0' <= c <= '9') || c == '_') && c < 128 as char
  }

  /** `strings.Title`, continuing after a rune `prev`. */
  function TitleFrom(prev: char, s: string): (r: string)
    decreases |s|
    ensures |r| == |s|
    ensures |s| > 0 ==> r[0] == (if IsSeparator(prev) then UpperChar(s[0]) else s[0])
    ensures forall i :: 0 < i < |s| ==> r[i] == (if IsSeparator(s[i - 1]) then UpperChar(s[i]) else s[i])
  {
    if s == [] then []
    else
      var rest := TitleFrom(s[0], s[1..]);
      [if IsSeparator(prev) then UpperChar(s[0]) else s[0]] + rest
  }

  /** `strings.Title`: every letter that starts a word is upper-cased, all else is kept. */
  function Title(s: string): (r: string)
    ensures |r| == |s|
    ensures forall i :: 0 <= i < |s| ==>
      r[i] == (if i == 0 || IsSeparator(s[i - 1]) then UpperChar(s[i]) else s[i])
  {
    TitleFrom(' ', s)
  }

  /** `GetCategoryDisplayName`: the definition's name when the key exists, else the title-cased key. */
  function GetCategoryDisplayName(c: Config, category: string): (r: string)
    ensures category in c.categories ==> r == c.categories[category].name
    ensures category !in c.categories ==> r == Title(category)
    ensures category !in c.categories ==> |r| == |category| && Lower(r) == Lower(category)
  {
    if category in c.categories then c.categories[category].name
    else
      var r := Title(category);
      forall i | 0 <= i < |category| ensures LowerChar(r[i]) == LowerChar(category[i]) {
        if i == 0 || IsSeparator(category[i - 1]) {
          assert r[i] == UpperChar(category[i]);
          LowerOfUpper(category[i]);
        }
      }
      assert Lower(r) == Lower(category);
      r
  }
}
