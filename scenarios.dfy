/** Worked cases over the sample rows of the gazetteer: a report naming a settlement,
    one naming a country only, and one where a settlement's name is only part of a
    longer word. Each key that does not occur in a text is ruled out by a letter it
    has and the text lacks, one key at a time. */
module Scenarios {
  import opened Text
  import opened Gazetteer
  import opened Resolver
  import Classifier
  import Counts
  import Pipeline

  /** The kinds of the sample rows: three settlements, five cities, four countries. */
  ghost predicate SampleKinds(db: seq<Entry>)
  {
    && |db| == 12
    && (forall j :: 0 <= j < 3 ==> db[j].rec.kind == Slum)
    && (forall j :: 3 <= j < 8 ==> db[j].rec.kind == City)
    && (forall j :: 8 <= j < 12 ==> db[j].rec.kind == Country)
  }

  /** The keys of the sample rows, in table order. */
  ghost predicate SampleKeys(db: seq<Entry>)
    requires |db| == 12
  {
    && db[0].key == "kibera" && db[1].key == "mathare" && db[2].key == "mbare"
    && db[3].key == "lagos" && db[4].key == "nairobi" && db[5].key == "harare"
    && db[6].key == "s√£o paulo" && db[7].key == "asuncion"
    && db[8].key == "nigeria" && db[9].key == "kenya" && db[10].key == "ethiopia"
    && db[11].key == "zimbabwe"
  }

  lemma RowsKinds(db: seq<Entry>)
    requires db == Rows
    ensures SampleKinds(db)
  {
  }

  lemma RowsKeys(db: seq<Entry>)
    requires db == Rows
    ensures |db| == 12 && SampleKeys(db)
  {
  }

  /** A lower-case key lacking a character of the text is not found in it. */
  lemma Missing(k: string, t: string, c: char)
    requires NoUpper(k) && c in k && c !in t
    ensures !KeyHits(k, t)
  {
    LowerOfNoUpper(k);
    NotContainsByChar(t, k, c);
    KeyHitsIff(k, t);
  }

  /** A lower-case key standing as a whole word in the text is found. */
  lemma Present(k: string, t: string, i: nat)
    requires NoUpper(k) && WholeWordAt(k, t, i)
    ensures KeyHits(k, t)
  {
    LowerOfNoUpper(k);
    KeyHitsIff(k, t);
  }

  /** A text in which none of the three settlement keys is found names no settlement. */
  lemma NoSettlement(db: seq<Entry>, t: string)
    requires SampleKinds(db)
    requires !KeyHits(db[0].key, t) && !KeyHits(db[1].key, t) && !KeyHits(db[2].key, t)
    ensures NoHit(db, Slum, t)
  {
    forall j | 0 <= j < |db| ensures !HitsKind(db[j], Slum, t) {
      if j == 0 {
      } else if j == 1 {
      } else if j == 2 {
      }
    }
  }

  /** Likewise for the five city keys, */
  lemma NoCity(db: seq<Entry>, t: string)
    requires SampleKinds(db)
    requires !KeyHits(db[3].key, t) && !KeyHits(db[4].key, t) && !KeyHits(db[5].key, t)
    requires !KeyHits(db[6].key, t) && !KeyHits(db[7].key, t)
    ensures NoHit(db, City, t)
  {
    forall j | 0 <= j < |db| ensures !HitsKind(db[j], City, t) {
      if j == 3 {
      } else if j == 4 {
      } else if j == 5 {
      } else if j == 6 {
      } else if j == 7 {
      }
    }
  }

  /** and for the four country keys. */
  lemma NoCountry(db: seq<Entry>, t: string)
    requires SampleKinds(db)
    requires !KeyHits(db[8].key, t) && !KeyHits(db[9].key, t)
    requires !KeyHits(db[10].key, t) && !KeyHits(db[11].key, t)
    ensures NoHit(db, Country, t)
  {
    forall j | 0 <= j < |db| ensures !HitsKind(db[j], Country, t) {
      if j == 8 {
      } else if j == 9 {
      } else if j == 10 {
      } else if j == 11 {
      }
    }
  }

  /** Ethiopia is the first country found when Nigeria and Kenya, listed before it,
      are not. */
  lemma EthiopiaFirst(db: seq<Entry>, t: string)
    requires SampleKinds(db)
    requires !KeyHits(db[8].key, t) && !KeyHits(db[9].key, t) && KeyHits(db[10].key, t)
    ensures IsFirstHit(db, Country, t, 10)
  {
    forall j | 0 <= j < 10 ensures !HitsKind(db[j], Country, t) {
      if j == 8 {
      } else if j == 9 {
      }
    }
  }

  /** `residents of kibera protest eviction of 300 families` holds `kibera` as a word. */
  lemma KiberaFound(text: string)
    requires text == "residents of kibera " + "protest eviction of " + "300 families"
    ensures Lower(text) == text && KeyHits("kibera", text)
  {
    Counts.KiberaLower(text);
    LowerOfNoUpper(text);
    KiberaWord(text);
    Present("kibera", text, 13);
  }

  lemma KiberaWord(text: string)
    requires text == "residents of kibera " + "protest eviction of " + "300 families"
    ensures WholeWordAt("kibera", text, 13)
  {
    var p, m, q := "residents of kibera ", "protest eviction of ", "300 families";
    Concat3(p, m, q);
    assert forall j :: 0 <= j < 6 ==> text[13 + j] == p[13 + j] == "kibera"[j];
    assert text[12] == ' ' && text[19] == ' ';
  }

  /** So the report names the settlement Kibera, in Nairobi, Kenya. */
  lemma KiberaReport(db: seq<Entry>, text: string)
    requires db == Rows
    requires text == "residents of kibera " + "protest eviction of " + "300 families"
    ensures ExtractLocation(db, text) == Location(Some("kibera"), Some("Nairobi"), Some("Kenya"), Some(db[0].rec))
  {
    KiberaFound(text);
    RowsKinds(db);
    RowsKeys(db);
    assert IsFirstHit(db, Slum, text, 0);
  }

  // `floods in ethiopia`: each of the keys listed before `ethiopia` is missing.

  lemma FloodsWithoutKibera(t: string)
    requires t == "floods in ethiopia"
    ensures !KeyHits("kibera", t)
  {
    Missing("kibera", t, 'k');
  }

  lemma FloodsWithoutMathare(t: string)
    requires t == "floods in ethiopia"
    ensures !KeyHits("mathare", t)
  {
    Missing("mathare", t, 'm');
  }

  lemma FloodsWithoutMbare(t: string)
    requires t == "floods in ethiopia"
    ensures !KeyHits("mbare", t)
  {
    Missing("mbare", t, 'm');
  }

  lemma FloodsWithoutLagos(t: string)
    requires t == "floods in ethiopia"
    ensures !KeyHits("lagos", t)
  {
    Missing("lagos", t, 'g');
  }

  lemma FloodsWithoutNairobi(t: string)
    requires t == "floods in ethiopia"
    ensures !KeyHits("nairobi", t)
  {
    Missing("nairobi", t, 'b');
  }

  lemma FloodsWithoutHarare(t: string)
    requires t == "floods in ethiopia"
    ensures !KeyHits("harare", t)
  {
    Missing("harare", t, 'r');
  }

  lemma FloodsWithoutSaoPaulo(t: string)
    requires t == "floods in ethiopia"
    ensures !KeyHits("s√£o paulo", t)
  {
    Missing("s√£o paulo", t, 'u');
  }

  lemma FloodsWithoutAsuncion(t: string)
    requires t == "floods in ethiopia"
    ensures !KeyHits("asuncion", t)
  {
    Missing("asuncion", t, 'u');
  }

  lemma FloodsWithoutNigeria(t: string)
    requires t == "floods in ethiopia"
    ensures !KeyHits("nigeria", t)
  {
    Missing("nigeria", t, 'g');
  }

  lemma FloodsWithoutKenya(t: string)
    requires t == "floods in ethiopia"
    ensures !KeyHits("kenya", t)
  {
    Missing("kenya", t, 'k');
  }

  /** `floods in ethiopia` holds `ethiopia` as a word. */
  lemma FloodsWithEthiopia(t: string)
    requires t == "floods in ethiopia"
    ensures KeyHits("ethiopia", t)
  {
    assert OccursAt("ethiopia", t, 10);
    Present("ethiopia", t, 10);
  }

  /** It is written in lower case. */
  lemma FloodsLower(t: string)
    requires t == "floods in ethiopia"
    ensures Lower(t) == t
  {
    assert NoUpper(t);
    LowerOfNoUpper(t);
  }

  /** So the report names no settlement and no city, and the country pass answers
      with Ethiopia and its record's city, Addis Ababa. */
  lemma EthiopiaReport(db: seq<Entry>, text: string)
    requires db == Rows && text == "floods in ethiopia"
    ensures ExtractLocation(db, text) == Location(None, Some("Addis Ababa"), Some("ethiopia"), Some(db[10].rec))
  {
    RowsKinds(db);
    RowsKeys(db);
    FloodsLower(text);
    FloodsWithEthiopia(text);
    FloodsWithoutKibera(text);
    FloodsWithoutMathare(text);
    FloodsWithoutMbare(text);
    NoSettlement(db, text);
    FloodsWithoutLagos(text);
    FloodsWithoutNairobi(text);
    FloodsWithoutHarare(text);
    FloodsWithoutSaoPaulo(text);
    FloodsWithoutAsuncion(text);
    NoCity(db, text);
    FloodsWithoutNigeria(text);
    FloodsWithoutKenya(text);
    EthiopiaFirst(db, text);
  }

  // `protest in mbarexyz`: no key is found.

  lemma MbarexyzWithoutKibera(t: string)
    requires t == "protest in mbarexyz"
    ensures !KeyHits("kibera", t)
  {
    Missing("kibera", t, 'k');
  }

  lemma MbarexyzWithoutMathare(t: string)
    requires t == "protest in mbarexyz"
    ensures !KeyHits("mathare", t)
  {
    Missing("mathare", t, 'h');
  }

  lemma MbarexyzWithoutLagos(t: string)
    requires t == "protest in mbarexyz"
    ensures !KeyHits("lagos", t)
  {
    Missing("lagos", t, 'l');
  }

  lemma MbarexyzWithoutHarare(t: string)
    requires t == "protest in mbarexyz"
    ensures !KeyHits("harare", t)
  {
    Missing("harare", t, 'h');
  }

  lemma MbarexyzWithoutSaoPaulo(t: string)
    requires t == "protest in mbarexyz"
    ensures !KeyHits("s√£o paulo", t)
  {
    Missing("s√£o paulo", t, 'u');
  }

  lemma MbarexyzWithoutAsuncion(t: string)
    requires t == "protest in mbarexyz"
    ensures !KeyHits("asuncion", t)
  {
    Missing("asuncion", t, 'u');
  }

  lemma MbarexyzWithoutNigeria(t: string)
    requires t == "protest in mbarexyz"
    ensures !KeyHits("nigeria", t)
  {
    Missing("nigeria", t, 'g');
  }

  lemma MbarexyzWithoutKenya(t: string)
    requires t == "protest in mbarexyz"
    ensures !KeyHits("kenya", t)
  {
    Missing("kenya", t, 'k');
  }

  lemma MbarexyzWithoutEthiopia(t: string)
    requires t == "protest in mbarexyz"
    ensures !KeyHits("ethiopia", t)
  {
    Missing("ethiopia", t, 'h');
  }

  lemma MbarexyzWithoutZimbabwe(t: string)
    requires t == "protest in mbarexyz"
    ensures !KeyHits("zimbabwe", t)
  {
    Missing("zimbabwe", t, 'w');
  }

  /** `nairobi` has the letters of the text, but never `a` followed by `i`. */
  lemma MbarexyzWithoutNairobi(t: string)
    requires t == "protest in mbarexyz"
    ensures !KeyHits("nairobi", t)
  {
    NotContainsByPair(t, "nairobi", 1);
    LowerOfNoUpper("nairobi");
    KeyHitsIff("nairobi", t);
  }

  /** The text is written in lower case, */
  lemma MbarexyzLower(t: string)
    requires t == "protest in mbarexyz"
    ensures Lower(t) == t
  {
    assert NoUpper(t);
    LowerOfNoUpper(t);
  }

  /** its only `m` is at 11, and `x` follows `mbare` there. */
  lemma MbarexyzLayout(t: string)
    requires t == "protest in mbarexyz"
    ensures |t| == 19 && t[16] == 'x'
    ensures forall i :: 0 <= i < |t| && t[i] == 'm' ==> i == 11
  {
  }

  /** In a text whose only `m` is at 11 and continues as a word at 16, `mbare` occurs
      only inside a longer word. */
  lemma OnlyInsideLongerWord(t: string)
    requires |t| == 19 && t[16] == 'x'
    requires forall i :: 0 <= i < |t| && t[i] == 'm' ==> i == 11
    ensures !KeyHits("mbare", t)
  {
    var k := "mbare";
    LowerOfNoUpper(k);
    forall i | OccursAt(k, t, i) ensures !WholeWordAt(k, t, i) {
      assert t[i] == k[0];
      NotInsideLongerWord(k, t, 11);
    }
    KeyHitsIff(k, t);
  }

  /** So nothing is found: a key is matched as a whole word only. */
  lemma NoWholeWord(db: seq<Entry>, text: string)
    requires db == Rows && text == "protest in mbarexyz"
    ensures ExtractLocation(db, text) == NoLocation
  {
    RowsKinds(db);
    RowsKeys(db);
    MbarexyzLower(text);
    MbarexyzLayout(text);
    OnlyInsideLongerWord(text);
    MbarexyzWithoutKibera(text);
    MbarexyzWithoutMathare(text);
    NoSettlement(db, text);
    MbarexyzWithoutLagos(text);
    MbarexyzWithoutNairobi(text);
    MbarexyzWithoutHarare(text);
    MbarexyzWithoutSaoPaulo(text);
    MbarexyzWithoutAsuncion(text);
    NoCity(db, text);
    MbarexyzWithoutNigeria(text);
    MbarexyzWithoutKenya(text);
    MbarexyzWithoutEthiopia(text);
    MbarexyzWithoutZimbabwe(text);
    NoCountry(db, text);
  }

  /** The kibera report holds the word `eviction`. */
  lemma KiberaMentionsEviction(text: string)
    requires text == "residents of kibera " + "protest eviction of " + "300 families"
    ensures Lower(text) == text && Contains(text, "eviction")
  {
    Counts.KiberaLower(text);
    LowerOfNoUpper(text);
    var p, m, q := "residents of kibera ", "protest eviction of ", "300 families";
    Concat3(p, m, q);
    assert forall j :: 0 <= j < 8 ==> text[28 + j] == m[8 + j] == "eviction"[j];
    assert OccursAt("eviction", text, 28);
  }

  /** So it is an eviction and not a land-rights dispute, though both lists hold the
      word. */
  lemma KiberaIsEviction(cats: seq<Classifier.Category>, text: string)
    requires cats == Classifier.EventKeywords
    requires text == "residents of kibera " + "protest eviction of " + "300 families"
    ensures Classifier.ExtractEventType(cats, text) == "eviction"
  {
    KiberaMentionsEviction(text);
    Classifier.EvictionShadowsLandRights(cats, text);
  }

  /** The first sample row is Kibera's. */
  lemma RowsKibera(db: seq<Entry>)
    requires db == Rows
    ensures |db| == 12
    ensures db[0] == Entry("kibera", Record(Coord(-12921), Coord(368219), Slum, "Nairobi", "Kenya"))
  {
  }

  /** Kibera's address line. */
  lemma KiberaAddress(e: Entry)
    requires e == Entry("kibera", Record(Coord(-12921), Coord(368219), Slum, "Nairobi", "Kenya"))
    ensures Title(e.key) + ", " + e.rec.city + ", " + e.rec.country == "Kibera, Nairobi, Kenya"
  {
    TitleLowerWord(e.key);
    assert UpperChar('k') == 'K' && e.key[1..] == "ibera";
    AddressParts("Kibera", "Nairobi", "Kenya");
  }

  lemma AddressParts(a: string, b: string, c: string)
    requires a == "Kibera" && b == "Nairobi" && c == "Kenya"
    ensures a + ", " + b + ", " + c == "Kibera, Nairobi, Kenya"
  {
    var r := a + ", " + b + ", " + c;
    assert forall k :: 0 <= k < 22 ==> r[k] == "Kibera, Nairobi, Kenya"[k];
  }

  /** A lower-case word is title-cased by raising its first letter alone. */
  lemma TitleLowerWord(k: string)
    requires |k| > 0 && forall i :: 0 <= i < |k| ==> IsLowerLetter(k[i])
    ensures Title(k) == [UpperChar(k[0])] + k[1..]
  {
    LowerTailKept(k[1..]);
  }

  /** After a letter, a run of lower-case letters is left as it is. */
  lemma {:induction false} LowerTailKept(s: string)
    requires forall i :: 0 <= i < |s| ==> IsLowerLetter(s[i])
    ensures TitleFrom(s, true) == s
  {
    if s != [] {
      LowerTailKept(s[1..]);
    }
  }

  /** As an article, the report becomes an event at Kibera's coordinates, typed
      eviction, counting 300 people, addressed `Kibera, Nairobi, Kenya`. */
  lemma KiberaEvent(db: seq<Entry>, a: Pipeline.Article)
    requires db == Rows
    requires a.fullText == Some("residents of kibera " + "protest eviction of " + "300 families")
    ensures Pipeline.EventOf(db, a).Some?
    ensures var e := Pipeline.EventOf(db, a).value;
      && e.lat == Coord(-12921) && e.lon == Coord(368219) && e.kind == Slum
      && e.eventType == "eviction" && e.affected == Some(300)
      && e.address == "Kibera, Nairobi, Kenya"
  {
    var text := Pipeline.FullText(a);
    RowsKibera(db);
    KiberaReport(db, text);
    KiberaIsEviction(Classifier.EventKeywords, text);
    Counts.KiberaCount(text);
    Pipeline.SettlementEvent(db, a, 0);
    KiberaAddress(db[0]);
  }

  // `floods reported in lagos`: no settlement key occurs, and `lagos` is the first city.

  lemma LagosWithoutKibera(t: string)
    requires t == "floods reported in lagos"
    ensures !KeyHits("kibera", t)
  {
    Missing("kibera", t, 'k');
  }

  lemma LagosWithoutMathare(t: string)
    requires t == "floods reported in lagos"
    ensures !KeyHits("mathare", t)
  {
    Missing("mathare", t, 'm');
  }

  lemma LagosWithoutMbare(t: string)
    requires t == "floods reported in lagos"
    ensures !KeyHits("mbare", t)
  {
    Missing("mbare", t, 'm');
  }

  /** `floods reported in lagos` is written in lower case */
  lemma LagosLower(t: string)
    requires t == "floods reported in lagos"
    ensures Lower(t) == t
  {
    assert NoUpper(t);
    LowerOfNoUpper(t);
  }

  /** and holds `lagos` as a word. */
  lemma LagosFound(t: string)
    requires t == "floods reported in lagos"
    ensures KeyHits("lagos", t)
  {
    assert OccursAt("lagos", t, 19);
    Present("lagos", t, 19);
  }

  /** So the city pass answers: no settlement, the city Lagos and its country. */
  lemma LagosReport(db: seq<Entry>, text: string)
    requires db == Rows && text == "floods reported in lagos"
    ensures ExtractLocation(db, text) == Location(None, Some("lagos"), Some("Nigeria"), Some(db[3].rec))
  {
    RowsKinds(db);
    RowsKeys(db);
    LagosLower(text);
    LagosFound(text);
    LagosWithoutKibera(text);
    LagosWithoutMathare(text);
    LagosWithoutMbare(text);
    NoSettlement(db, text);
    assert IsFirstHit(db, City, text, 3);
  }

  /** As an article, that report becomes an event at Lagos's coordinates, addressed
      `Lagos, Nigeria`. */
  lemma LagosEvent(db: seq<Entry>, a: Pipeline.Article)
    requires db == Rows
    requires a.fullText == Some("floods reported in lagos")
    ensures Pipeline.EventOf(db, a).Some?
    ensures var e := Pipeline.EventOf(db, a).value;
      && e.lat == Coord(65244) && e.lon == Coord(33792) && e.kind == City
      && e.settlement.None? && e.city == Some("lagos") && e.address == "Lagos, Nigeria"
  {
    var text := Pipeline.FullText(a);
    RowsLagos(db);
    LagosReport(db, text);
    Pipeline.CityEvent(db, a, 3);
    LagosAddress(db[3]);
  }

  /** The fourth sample row is Lagos's. */
  lemma RowsLagos(db: seq<Entry>)
    requires db == Rows
    ensures |db| == 12
    ensures db[3] == Entry("lagos", Record(Coord(65244), Coord(33792), City, "Lagos", "Nigeria"))
  {
  }

  /** Lagos's address line. */
  lemma LagosAddress(e: Entry)
    requires e == Entry("lagos", Record(Coord(65244), Coord(33792), City, "Lagos", "Nigeria"))
    ensures Title(e.key) + ", " + e.rec.country == "Lagos, Nigeria"
  {
    TitleLowerWord(e.key);
    assert UpperChar('l') == 'L' && e.key[1..] == "agos";
    var r := "Lagos" + ", " + "Nigeria";
    assert forall k :: 0 <= k < 14 ==> r[k] == "Lagos, Nigeria"[k];
  }
}
