/** `extract_event_type`: the first of eight ordered keyword lists with a keyword that
    is a plain substring of the lower-cased text gives the event type; otherwise
    `other`. */
module Classifier {
  import opened Text

  /** An event type and its keywords, in declaration order. */
  type Category = (string, seq<string>)

  /** The `event_keywords` dict, keys and keywords verbatim (including the accented
      words exactly as the source file spells them). */
  const EventKeywords: seq<Category> := [
      ("eviction", ["eviction", "evictions", "forced eviction", "forced removal", "expulsion", "despejo", "despejos", "remo√ß√£o for√ßada", "expuls√£o", "desalojo", "desalojos", "desahucio", "expulsion", "expulsions"]),
      ("demolition", ["demolition", "demolitions", "bulldoze", "bulldozing", "razed", "torn down", "demoli√ß√£o", "demoli√ß√µes", "demolici√≥n", "demoliciones", "d√©molition", "d√©molitions"]),
      ("protest", ["protest", "protests", "demonstration", "march", "rally", "strike", "protesto", "protestos", "manifesta√ß√£o", "greve", "protesta", "protestas", "manifestaci√≥n", "huelga", "protestation", "manifestation", "gr√®ve"]),
      ("fire", ["fire", "blaze", "arson", "burning", "incendiary", "inferno", "inc√™ndio", "queimada", "incendio", "quema", "incendie", "feu"]),
      ("flood", ["flood", "flooding", "inundation", "deluge", "enchente", "inunda√ß√£o", "inundaci√≥n", "inondation", "d√©luge"]),
      ("land_rights", ["land rights", "land conflict", "land dispute", "land grab", "eviction", "direito √† terra", "conflito fundi√°rio", "disputa de terra", "derecho a la tierra", "conflicto de tierras", "droit foncier", "conflit foncier"]),
      ("disease", ["cholera", "malaria", "disease", "outbreak", "epidemic", "health crisis", "c√≥lera", "mal√°ria", "doen√ßa", "surto", "c√≥lera", "malaria", "enfermedad", "brote", "chol√©ra", "paludisme", "maladie", "√©pid√©mie"]),
      ("development", ["development", "redevelopment", "urban renewal", "regeneration", "desenvolvimento", "renova√ß√£o urbana", "desarrollo", "renovaci√≥n urbana", "d√©veloppement", "r√©novation urbaine"])
    ]

  const Other := "other"

  /** The nine possible results. */
  const Tags: set<string> := {"eviction", "demolition", "protest", "fire", "flood",
                              "land_rights", "disease", "development", "other"}

  /** Some keyword of the list is a substring of `t`. */
  predicate AnyIn(kws: seq<string>, t: string)
  {
    exists j | 0 <= j < |kws| :: Contains(t, kws[j])
  }

  /** The inner loop: keywords tried in order, stopping at the first that occurs. */
  function MatchesCategory(kws: seq<string>, t: string): (b: bool)
    ensures b <==> AnyIn(kws, t)
  {
    if kws == [] then false
    else if Contains(t, kws[0]) then true
    else
      var b := MatchesCategory(kws[1..], t);
      assert forall j :: 1 <= j < |kws| ==> kws[j] == kws[1..][j - 1];
      b
  }

  /** Category `c` is the first whose keywords occur in `t`. */
  ghost predicate IsFirstCategory(cats: seq<Category>, t: string, c: int)
  {
    0 <= c < |cats| && AnyIn(cats[c].1, t)
    && forall d :: 0 <= d < c ==> !AnyIn(cats[d].1, t)
  }

  ghost predicate NoCategory(cats: seq<Category>, t: string)
  {
    forall d :: 0 <= d < |cats| ==> !AnyIn(cats[d].1, t)
  }

  /** The outer loop, from category `from` on. */
  function FirstCategory(cats: seq<Category>, t: string, from: nat): (r: Option<nat>)
    decreases |cats| - from
    ensures r.Some? ==> from <= r.value < |cats| && AnyIn(cats[r.value].1, t)
    ensures r.Some? ==> forall d :: from <= d < r.value ==> !AnyIn(cats[d].1, t)
    ensures r.None? ==> forall d :: from <= d < |cats| ==> !AnyIn(cats[d].1, t)
  {
    if from >= |cats| then None
    else if MatchesCategory(cats[from].1, t) then Some(from)
    else FirstCategory(cats, t, from + 1)
  }

  function ExtractEventType(cats: seq<Category>, text: string): (r: string)
    ensures text == "" ==> r == Other
    ensures text != "" ==>
              forall c :: IsFirstCategory(cats, Lower(text), c) ==> r == cats[c].0
    ensures text != "" && NoCategory(cats, Lower(text)) ==> r == Other
    ensures r == Other || exists c :: 0 <= c < |cats| && r == cats[c].0
  {
    if text == "" then Other
    else
      match FirstCategory(cats, Lower(text), 0)
      case Some(c) =>
        assert IsFirstCategory(cats, Lower(text), c);
        assert forall c' :: IsFirstCategory(cats, Lower(text), c') ==> c' == c;
        cats[c].0
      case None => Other
  }

  /** Whatever the text, the result is one of the nine tags. */
  lemma ResultIsTag(cats: seq<Category>, text: string)
    requires cats == EventKeywords
    ensures ExtractEventType(cats, text) in Tags
  {
    NamesAreTags(cats);
    ResultAmongNames(cats, text);
  }

  /** Each category of the table is named by one of the tags. */
  lemma NamesAreTags(cats: seq<Category>)
    requires cats == EventKeywords
    ensures Other in Tags && forall c :: 0 <= c < |cats| ==> cats[c].0 in Tags
  {
  }

  /** The result is `other` or the name of a category. */
  lemma ResultAmongNames(cats: seq<Category>, text: string)
    requires Other in Tags && forall c :: 0 <= c < |cats| ==> cats[c].0 in Tags
    ensures ExtractEventType(cats, text) in Tags
  {
    var r := ExtractEventType(cats, text);
    if r != Other {
      var c :| 0 <= c < |cats| && r == cats[c].0;
    }
  }

  /** `eviction` is the first keyword of the first category, so any text containing it is
      an eviction and never `land_rights`, which lists the same word. */
  lemma EvictionShadowsLandRights(cats: seq<Category>, text: string)
    requires cats == EventKeywords
    requires Contains(Lower(text), "eviction")
    ensures ExtractEventType(cats, text) == "eviction"
    ensures "eviction" in cats[5].1 && cats[5].0 == "land_rights"
  {
    assert cats[0].1[0] == "eviction";
    assert AnyIn(cats[0].1, Lower(text));
    assert IsFirstCategory(cats, Lower(text), 0);
    assert cats[5].1[4] == "eviction";
  }

  /** The result is `land_rights` only if no keyword of the five earlier categories,
      `eviction` among them, occurs in the text. */
  lemma LandRightsExcludesEarlier(cats: seq<Category>, text: string)
    requires cats == EventKeywords
    requires ExtractEventType(cats, text) == "land_rights"
    ensures !Contains(Lower(text), "eviction")
    ensures forall d :: 0 <= d < 5 ==> !AnyIn(cats[d].1, Lower(text))
  {
    LandRightsNamedOnce(cats);
    NamedResultExcludesEarlier(cats, text, 5);
    assert !AnyIn(cats[0].1, Lower(text));
  }

  /** `land_rights` names the sixth category only, and `eviction` opens the first. */
  lemma LandRightsNamedOnce(cats: seq<Category>)
    requires cats == EventKeywords
    ensures |cats| == 8 && cats[5].0 == "land_rights" && "land_rights" != Other
    ensures forall d :: 0 <= d < |cats| && d != 5 ==> cats[d].0 != "land_rights"
    ensures cats[0].1 != [] && cats[0].1[0] == "eviction"
  {
  }

  /** When the result is the name of category `k` and of no other category, no keyword
      of an earlier category occurs in the text. */
  lemma NamedResultExcludesEarlier(cats: seq<Category>, text: string, k: nat)
    requires k < |cats| && cats[k].0 != Other
    requires forall d :: 0 <= d < |cats| && d != k ==> cats[d].0 != cats[k].0
    requires ExtractEventType(cats, text) == cats[k].0
    ensures forall d :: 0 <= d < k ==> !AnyIn(cats[d].1, Lower(text))
  {
    var t := Lower(text);
    assert text != "";
    FirstCategoryOrNone(cats, t);
    if !NoCategory(cats, t) {
      var c :| IsFirstCategory(cats, t, c);
      assert c == k;
    }
  }

  lemma FirstCategoryOrNone(cats: seq<Category>, t: string)
    ensures NoCategory(cats, t) || exists c :: IsFirstCategory(cats, t, c)
  {
    var r := FirstCategory(cats, t, 0);
    if r.Some? {
      assert IsFirstCategory(cats, t, r.value);
    }
  }
}
