/** The two batch helpers around the GDELT requests: the list of search queries
    (`get_all_search_queries`) and the de-duplication of the collected articles (the
    loop at the end of `search_gdelt_only`). */
module Search {
  import opened Text
  import opened Gazetteer
  import Pipeline

  /** The languages whose keyword lists are searched, in order. */
  const Languages := ["en", "pt", "es", "fr"]

  /** A query is a settlement key of the table or a keyword of one of the languages. */
  ghost predicate IsQuery(db: seq<Entry>, keywords: map<string, seq<string>>, q: string)
    requires forall l :: l in Languages ==> l in keywords
  {
    (exists i :: 0 <= i < |db| && db[i].rec.kind == Slum && db[i].key == q)
    || (exists l :: l in Languages && q in keywords[l])
  }

  /** `get_all_search_queries`: the settlement keys in table order, then the keywords
      of each language, with duplicates removed. The list is built from a set, so its
      order is not defined; the model returns the set. */
  method AllSearchQueries(db: seq<Entry>, keywords: map<string, seq<string>>)
    returns (unique: set<string>)
    requires forall l :: l in Languages ==> l in keywords
    ensures forall q :: q in unique <==> IsQuery(db, keywords, q)
  {
    var queries: seq<string> := [];
    var i := 0;
    while i < |db|
      invariant 0 <= i <= |db|
      invariant forall q :: q in queries <==>
                  exists j :: 0 <= j < i && db[j].rec.kind == Slum && db[j].key == q
    {
      if db[i].rec.kind == Slum {
        queries := queries + [db[i].key];
      }
      i := i + 1;
    }
    ghost var slums := queries;
    var n := 0;
    while n < |Languages|
      invariant 0 <= n <= |Languages|
      invariant forall q :: q in queries <==>
                  q in slums || exists m :: 0 <= m < n && q in keywords[Languages[m]]
    {
      var words := keywords[Languages[n]];
      var k := 0;
      while k < |words|
        invariant 0 <= k <= |words|
        invariant forall q :: q in queries <==>
                    q in slums || (exists m :: 0 <= m < n && q in keywords[Languages[m]])
                    || q in words[..k]
      {
        queries := queries + [words[k]];
        k := k + 1;
      }
      assert words[..k] == words;
      n := n + 1;
    }
    unique := set q | q in queries;
    forall q | IsQuery(db, keywords, q) ensures q in unique {
      if exists l :: l in Languages && q in keywords[l] {
        var l :| l in Languages && q in keywords[l];
        var m :| 0 <= m < |Languages| && Languages[m] == l;
      }
    }
  }

  /** The key an article is de-duplicated by: its URL, or the hash of its title when
      the URL is empty. URLs and title hashes share one set of seen keys. */
  function Key(a: Pipeline.Article, hash: string -> string): string
  {
    if a.url != "" then a.url else hash(a.title)
  }

  /** The keys of a list of articles. */
  function Keys(arts: seq<Pipeline.Article>, hash: string -> string): set<string>
  {
    if arts == [] then {} else Keys(arts[..|arts| - 1], hash) + {Key(arts[|arts| - 1], hash)}
  }

  /** Every article's key is among the keys. */
  lemma {:induction false} KeysMember(arts: seq<Pipeline.Article>, hash: string -> string, i: nat)
    requires i < |arts|
    ensures Key(arts[i], hash) in Keys(arts, hash)
  {
    if i < |arts| - 1 {
      var init := arts[..|arts| - 1];
      KeysMember(init, hash, i);
      assert init[i] == arts[i];
    }
  }

  /** Every key is the key of some article. */
  lemma {:induction false} KeysWitness(arts: seq<Pipeline.Article>, hash: string -> string, k: string)
    requires k in Keys(arts, hash)
    ensures exists i :: 0 <= i < |arts| && Key(arts[i], hash) == k
  {
    var init := arts[..|arts| - 1];
    if k != Key(arts[|arts| - 1], hash) {
      KeysWitness(init, hash, k);
      var i :| 0 <= i < |init| && Key(init[i], hash) == k;
      assert arts[i] == init[i];
    }
  }

  /** The indices of the articles kept: each one whose key no earlier article has. */
  function Kept(arts: seq<Pipeline.Article>, hash: string -> string): (r: seq<nat>)
    ensures forall k :: 0 <= k < |r| ==> r[k] < |arts|
  {
    if arts == [] then []
    else
      var init := arts[..|arts| - 1];
      if Key(arts[|arts| - 1], hash) in Keys(init, hash) then Kept(init, hash)
      else Kept(init, hash) + [|arts| - 1]
  }

  /** The articles at the kept indices, in input order. */
  function Unique(arts: seq<Pipeline.Article>, hash: string -> string): (r: seq<Pipeline.Article>)
    ensures |r| == |Kept(arts, hash)|
    ensures forall k :: 0 <= k < |r| ==> r[k] == arts[Kept(arts, hash)[k]]
  {
    var idx := Kept(arts, hash);
    seq(|idx|, k requires 0 <= k < |idx| => arts[idx[k]])
  }

  /** One more article: its key joins the seen keys, and its index is kept when the
      key is new. */
  lemma DedupStep(arts: seq<Pipeline.Article>, hash: string -> string, i: nat)
    requires i < |arts|
    ensures Keys(arts[..i + 1], hash) == Keys(arts[..i], hash) + {Key(arts[i], hash)}
    ensures Key(arts[i], hash) in Keys(arts[..i], hash) ==>
              Kept(arts[..i + 1], hash) == Kept(arts[..i], hash)
    ensures Key(arts[i], hash) !in Keys(arts[..i], hash) ==>
              Kept(arts[..i + 1], hash) == Kept(arts[..i], hash) + [i]
  {
    assert arts[..i + 1][..i] == arts[..i];
  }

  /** The loop at the end of `search_gdelt_only`, with the MD5 title hash as the
      parameter `hash`: it keeps an article when its key is new and records the key. */
  method DedupArticles(articles: seq<Pipeline.Article>, hash: string -> string)
    returns (unique: seq<Pipeline.Article>)
    ensures unique == Unique(articles, hash)
  {
    var seen: set<string> := {};
    unique := [];
    ghost var kept: seq<nat> := [];
    var i := 0;
    while i < |articles|
      invariant 0 <= i <= |articles|
      invariant seen == Keys(articles[..i], hash)
      invariant kept == Kept(articles[..i], hash)
      invariant |unique| == |kept|
      invariant forall k :: 0 <= k < |kept| ==> unique[k] == articles[kept[k]]
    {
      var a := articles[i];
      DedupStep(articles, hash, i);
      var url := a.url;
      if url != "" && url !in seen {
        seen := seen + {url};
        unique := unique + [a];
        kept := kept + [i];
      } else if url == "" {
        var titleHash := hash(a.title);
        if titleHash !in seen {
          seen := seen + {titleHash};
          unique := unique + [a];
          kept := kept + [i];
        }
      }
      i := i + 1;
    }
    assert articles[..i] == articles;
  }

  /** The kept indices of a non-empty list: those of all but the last article, then the
      last one when its key is new. */
  lemma KeptUnfold(arts: seq<Pipeline.Article>, hash: string -> string)
    requires arts != []
    ensures var init, last := arts[..|arts| - 1], |arts| - 1;
      Kept(arts, hash) == if Key(arts[last], hash) in Keys(init, hash) then Kept(init, hash)
                          else Kept(init, hash) + [last]
  {
  }

  /** The kept indices ascend: the result keeps the input order. */
  lemma {:induction false} KeptAscending(arts: seq<Pipeline.Article>, hash: string -> string)
    ensures forall k, l :: 0 <= k < l < |Kept(arts, hash)| ==> Kept(arts, hash)[k] < Kept(arts, hash)[l]
  {
    if arts != [] {
      var init := arts[..|arts| - 1];
      KeptAscending(init, hash);
      var r0 := Kept(init, hash);
      KeptUnfold(arts, hash);
      assert forall k :: 0 <= k < |r0| ==> r0[k] < |arts| - 1;
    }
  }

  /** Each kept index is the first index of its key. */
  lemma {:induction false} KeptFirst(arts: seq<Pipeline.Article>, hash: string -> string)
    ensures forall k, j :: 0 <= k < |Kept(arts, hash)| && 0 <= j < Kept(arts, hash)[k] ==>
              Key(arts[j], hash) != Key(arts[Kept(arts, hash)[k]], hash)
  {
    if arts != [] {
      var init := arts[..|arts| - 1];
      KeptFirst(init, hash);
      KeptUnfold(arts, hash);
      assert forall i :: 0 <= i < |init| ==> arts[i] == init[i];
      forall j | 0 <= j < |init| ensures Key(init[j], hash) in Keys(init, hash) {
        KeysMember(init, hash, j);
      }
    }
  }

  /** The kept indices of all but the last article stay kept, at the same places. */
  lemma KeptPrefix(arts: seq<Pipeline.Article>, hash: string -> string, k: nat)
    requires arts != [] && k < |Kept(arts[..|arts| - 1], hash)|
    ensures k < |Kept(arts, hash)| && Kept(arts, hash)[k] == Kept(arts[..|arts| - 1], hash)[k]
  {
    KeptUnfold(arts, hash);
  }

  /** Every key of the input is the key of a kept article. */
  lemma {:induction false} KeptCovers(arts: seq<Pipeline.Article>, hash: string -> string, i: nat)
    requires i < |arts|
    ensures exists k :: 0 <= k < |Kept(arts, hash)| && Key(arts[Kept(arts, hash)[k]], hash) == Key(arts[i], hash)
  {
    var init := arts[..|arts| - 1];
    var last := |arts| - 1;
    var r0 := Kept(init, hash);
    var j := i;
    if i == last && Key(arts[last], hash) !in Keys(init, hash) {
      KeptUnfold(arts, hash);
      assert Kept(arts, hash)[|r0|] == last;
    } else {
      if i == last {
        KeysWitness(init, hash, Key(arts[last], hash));
        j :| 0 <= j < |init| && Key(init[j], hash) == Key(arts[last], hash);
      }
      assert Key(init[j], hash) == Key(arts[i], hash);
      KeptCovers(init, hash, j);
      var k :| 0 <= k < |r0| && Key(init[r0[k]], hash) == Key(init[j], hash);
      KeptPrefix(arts, hash, k);
      assert arts[r0[k]] == init[r0[k]];
    }
  }

  /** Distinct kept articles have distinct keys. */
  lemma KeysDistinct(arts: seq<Pipeline.Article>, hash: string -> string, k: nat, l: nat)
    requires k < l < |Unique(arts, hash)|
    ensures Key(Unique(arts, hash)[k], hash) != Key(Unique(arts, hash)[l], hash)
  {
    KeptAscending(arts, hash);
    KeptFirst(arts, hash);
    var idx := Kept(arts, hash);
    assert idx[k] < idx[l];
    assert Key(arts[idx[k]], hash) != Key(arts[idx[l]], hash);
  }

  /** Removing duplicates a second time changes nothing. */
  lemma DedupIdempotent(arts: seq<Pipeline.Article>, hash: string -> string)
    ensures Unique(Unique(arts, hash), hash) == Unique(arts, hash)
  {
    var u := Unique(arts, hash);
    forall k, l | 0 <= k < l < |u| ensures Key(u[k], hash) != Key(u[l], hash) {
      KeysDistinct(arts, hash, k, l);
    }
    NoDuplicatesKeepsAll(u, hash);
  }

  /** A list whose keys are pairwise distinct is kept whole. */
  lemma {:induction false} NoDuplicatesKeepsAll(arts: seq<Pipeline.Article>, hash: string -> string)
    requires forall k, l :: 0 <= k < l < |arts| ==> Key(arts[k], hash) != Key(arts[l], hash)
    ensures |Kept(arts, hash)| == |arts|
    ensures forall k :: 0 <= k < |arts| ==> Kept(arts, hash)[k] == k
    ensures Unique(arts, hash) == arts
  {
    if arts != [] {
      var init := arts[..|arts| - 1];
      assert forall i :: 0 <= i < |init| ==> arts[i] == init[i];
      NoDuplicatesKeepsAll(init, hash);
      if Key(arts[|arts| - 1], hash) in Keys(init, hash) {
        KeysWitness(init, hash, Key(arts[|arts| - 1], hash));
      }
    }
  }
}
