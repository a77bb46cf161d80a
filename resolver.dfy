/** `extract_location_from_text`: three passes over the gazetteer in table order,
    settlements first, then cities, then countries; the first key found in the
    lower-cased text as a whole word decides the result. */
module Resolver {
  import opened Text
  import opened Gazetteer

  /** Python's `\b` at position `p` of `t`: exactly one of the characters on either
      side is a word character, the ends of the text counting as non-word. */
  predicate IsWordAt(t: string, p: int)
  {
    0 <= p < |t| && IsWordChar(t[p])
  }

  predicate AtBoundary(t: string, p: int)
  {
    IsWordAt(t, p - 1) != IsWordAt(t, p)
  }

  /** The pattern `\b` + `re.escape(k)` + `\b` matches `t` at `i`. */
  predicate WholeWordAt(k: string, t: string, i: int)
  {
    OccursAt(k, t, i) && AtBoundary(t, i) && AtBoundary(t, i + |k|)
  }

  /** `re.search` of that pattern, from position `from` on: the leftmost match. */
  function SearchWord(k: string, t: string, from: nat): (r: Option<nat>)
    decreases |t| + 1 - from
    ensures r.Some? ==> from <= r.value && WholeWordAt(k, t, r.value)
    ensures r.Some? ==> forall j :: from <= j < r.value ==> !WholeWordAt(k, t, j)
    ensures r.None? ==> forall j :: from <= j ==> !WholeWordAt(k, t, j)
  {
    if from + |k| > |t| then None
    else if WholeWordAt(k, t, from) then Some(from)
    else SearchWord(k, t, from + 1)
  }

  /** The test of every pass: the lower-cased key is found in the (already lower-cased)
      text as a whole word. */
  predicate KeyHits(k: string, t: string)
  {
    SearchWord(Lower(k), t, 0).Some?
  }

  predicate Hits(e: Entry, t: string)
  {
    KeyHits(e.key, t)
  }

  /** `re.search` finds the pattern exactly when it matches somewhere. */
  lemma KeyHitsIff(k: string, t: string)
    ensures KeyHits(k, t) ==> exists i :: WholeWordAt(Lower(k), t, i)
    ensures (exists i :: WholeWordAt(Lower(k), t, i)) ==> KeyHits(k, t)
  {
    var r := SearchWord(Lower(k), t, 0);
    if r.Some? {
      assert WholeWordAt(Lower(k), t, r.value);
    }
    forall i | WholeWordAt(Lower(k), t, i) ensures r.Some? {
    }
  }

  /** Nothing is found in the empty text: the only place an empty key could occur is
      position 0, which is not a word boundary. */
  lemma NothingHitsEmpty(db: seq<Entry>)
    ensures Lower("") == ""
    ensures NoHit(db, Slum, "") && NoHit(db, City, "") && NoHit(db, Country, "")
  {
    forall j | 0 <= j < |db| ensures !Hits(db[j], "") {
      KeyHitsIff(db[j].key, "");
    }
  }

  lemma FirstHitUnique(db: seq<Entry>, kind: Kind, t: string, i: int, i': int)
    requires IsFirstHit(db, kind, t, i) && IsFirstHit(db, kind, t, i')
    ensures i == i'
  {
  }

  lemma HitNeedsOccurrence(e: Entry, t: string)
    requires Hits(e, t)
    ensures Contains(t, Lower(e.key))
  {
    var i := SearchWord(Lower(e.key), t, 0).value;
    assert OccursAt(Lower(e.key), t, i);
  }

  predicate HitsKind(e: Entry, kind: Kind, t: string)
  {
    e.rec.kind == kind && Hits(e, t)
  }

  ghost predicate IsFirstHit(db: seq<Entry>, kind: Kind, t: string, i: int)
  {
    0 <= i < |db| && HitsKind(db[i], kind, t)
    && forall j :: 0 <= j < i ==> !HitsKind(db[j], kind, t)
  }

  ghost predicate NoHit(db: seq<Entry>, kind: Kind, t: string)
  {
    forall j :: 0 <= j < |db| ==> !HitsKind(db[j], kind, t)
  }

  /** One pass: the first entry of the given kind, from index `from` on, that hits. */
  function FirstOfKind(db: seq<Entry>, kind: Kind, t: string, from: nat): (r: Option<nat>)
    decreases |db| - from
    ensures r.Some? ==> from <= r.value < |db| && HitsKind(db[r.value], kind, t)
    ensures r.Some? ==> forall j :: from <= j < r.value ==> !HitsKind(db[j], kind, t)
    ensures r.None? ==> forall j :: from <= j < |db| ==> !HitsKind(db[j], kind, t)
  {
    if from >= |db| then None
    else if HitsKind(db[from], kind, t) then Some(from)
    else FirstOfKind(db, kind, t, from + 1)
  }

  /** Every pass ends either with a first hit or with none. */
  lemma FirstHitOrNone(db: seq<Entry>, kind: Kind, t: string)
    ensures NoHit(db, kind, t) || exists i :: IsFirstHit(db, kind, t, i)
  {
    var r := FirstOfKind(db, kind, t, 0);
    if r.Some? {
      assert IsFirstHit(db, kind, t, r.value);
    }
  }

  /** The 4-tuple `(slum_name, city, country, location_data)`. */
  datatype Location = Location(settlement: Option<string>, city: Option<string>,
                               country: Option<string>, record: Option<Record>)

  const NoLocation := Location(None, None, None, None)

  function SettlementResult(e: Entry): Location
  {
    Location(Some(e.key), Some(e.rec.city), Some(e.rec.country), Some(e.rec))
  }

  function CityResult(e: Entry): Location
  {
    Location(None, Some(e.key), Some(e.rec.country), Some(e.rec))
  }

  function CountryResult(e: Entry): Location
  {
    Location(None, Some(e.rec.city), Some(e.key), Some(e.rec))
  }

  function ExtractLocation(db: seq<Entry>, text: string): (r: Location)
    ensures text == "" ==> r == NoLocation
    ensures forall i :: IsFirstHit(db, Slum, Lower(text), i) ==> r == SettlementResult(db[i])
    ensures NoHit(db, Slum, Lower(text)) ==>
              forall i :: IsFirstHit(db, City, Lower(text), i) ==> r == CityResult(db[i])
    ensures NoHit(db, Slum, Lower(text)) && NoHit(db, City, Lower(text)) ==>
              forall i :: IsFirstHit(db, Country, Lower(text), i) ==> r == CountryResult(db[i])
    ensures (NoHit(db, Slum, Lower(text)) && NoHit(db, City, Lower(text))
             && NoHit(db, Country, Lower(text))) ==> r == NoLocation
  {
    if text == "" then
      NothingHitsEmpty(db);
      NoLocation
    else
      var t := Lower(text);
      match FirstOfKind(db, Slum, t, 0)
      case Some(i) =>
        assert IsFirstHit(db, Slum, t, i);
        assert forall i' :: IsFirstHit(db, Slum, t, i') ==> i' == i;
        SettlementResult(db[i])
      case None =>
        assert NoHit(db, Slum, t);
        match FirstOfKind(db, City, t, 0)
        case Some(i) =>
          assert IsFirstHit(db, City, t, i);
          assert forall i' :: IsFirstHit(db, City, t, i') ==> i' == i;
          CityResult(db[i])
        case None =>
          assert NoHit(db, City, t);
          match FirstOfKind(db, Country, t, 0)
          case Some(i) =>
            assert IsFirstHit(db, Country, t, i);
            assert forall i' :: IsFirstHit(db, Country, t, i') ==> i' == i;
            CountryResult(db[i])
          case None =>
            assert NoHit(db, Country, t);
            NoLocation
  }

  /** A record in the result is the record of an entry whose key is in the text. */
  lemma RecordFromGazetteer(db: seq<Entry>, text: string)
    ensures var r := ExtractLocation(db, text);
      r.record.Some? ==> exists i :: 0 <= i < |db| && db[i].rec == r.record.value && Hits(db[i], Lower(text))
  {
    var t := Lower(text);
    FirstHitOrNone(db, Slum, t);
    FirstHitOrNone(db, City, t);
    FirstHitOrNone(db, Country, t);
  }

  /** A settlement anywhere in the text wins over every city and country. */
  lemma SettlementWins(db: seq<Entry>, text: string, i: nat)
    requires i < |db| && HitsKind(db[i], Slum, Lower(text))
    ensures exists j :: 0 <= j <= i && ExtractLocation(db, text) == SettlementResult(db[j])
                        && db[j].rec.kind == Slum
  {
    var r := FirstOfKind(db, Slum, Lower(text), 0);
    assert IsFirstHit(db, Slum, Lower(text), r.value);
  }

  /** Each location has exactly one kind, so the result's shape tells which pass matched. */
  lemma ResultShape(db: seq<Entry>, text: string)
    ensures var r := ExtractLocation(db, text);
      && (r.settlement.Some? ==> r.record.value.kind == Slum)
      && (r.record.Some? && r.settlement.None? && r.city.Some? && r.record.value.kind == City
          ==> NoHit(db, Slum, Lower(text)))
      && (r.record.Some? && r.record.value.kind == Country ==> NoHit(db, Slum, Lower(text)) && NoHit(db, City, Lower(text)))
      && (r.record.None? <==> NoHit(db, Slum, Lower(text)) && NoHit(db, City, Lower(text)) && NoHit(db, Country, Lower(text)))
  {
    var t := Lower(text);
    FirstHitOrNone(db, Slum, t);
    FirstHitOrNone(db, City, t);
    FirstHitOrNone(db, Country, t);
  }

  /** An entry whose lower-cased key and record repeat those of an earlier entry hits
      exactly the same texts, so it can never be the first hit. */
  ghost predicate Shadowed(db: seq<Entry>, e: Entry)
  {
    exists d :: d in db && Lower(d.key) == Lower(e.key) && d.rec == e.rec
  }

  lemma {:induction false} ExtraNeverFirst(db: seq<Entry>, extra: seq<Entry>, kind: Kind, t: string)
    requires forall e :: e in extra ==> Shadowed(db, e) || !Hits(e, t)
    ensures forall i :: IsFirstHit(db, kind, t, i) ==> IsFirstHit(db + extra, kind, t, i)
    ensures NoHit(db, kind, t) ==> NoHit(db + extra, kind, t)
  {
    var all := db + extra;
    assert forall j :: 0 <= j < |db| ==> all[j] == db[j];
    if NoHit(db, kind, t) {
      forall j | |db| <= j < |all| ensures !HitsKind(all[j], kind, t) {
        var e := all[j];
        assert e == extra[j - |db|];
        if Shadowed(db, e) {
          var d :| d in db && Lower(d.key) == Lower(e.key) && d.rec == e.rec;
          var m :| 0 <= m < |db| && db[m] == d;
          assert !HitsKind(db[m], kind, t);
        }
      }
    }
  }

  /** Appending entries that are shadowed, or that do not hit the text, leaves the
      result unchanged. */
  lemma ExtraEntriesInvisible(db: seq<Entry>, extra: seq<Entry>, text: string)
    requires forall e :: e in extra ==> Shadowed(db, e) || !Hits(e, Lower(text))
    ensures ExtractLocation(db + extra, text) == ExtractLocation(db, text)
  {
    var t := Lower(text);
    FirstHitOrNone(db, Slum, t);
    FirstHitOrNone(db, City, t);
    FirstHitOrNone(db, Country, t);
    ExtraNeverFirst(db, extra, Slum, t);
    ExtraNeverFirst(db, extra, City, t);
    ExtraNeverFirst(db, extra, Country, t);
  }

  /** The variants the alias loop adds change no result, except where one of the
      accent spellings itself occurs in the text: title-cased variants lower-case to
      their source key and carry its record. */
  lemma VariantsInvisible(pairs: seq<(string, string)>, db: seq<Entry>, text: string)
    requires DistinctKeys(db) && PlainKeys(pairs, db)
    requires forall p :: 0 <= p < |pairs| ==> !KeyHits(pairs[p].1, Lower(text))
    ensures ExtractLocation(Update(db, Aliases(pairs, db)), text) == ExtractLocation(db, text)
  {
    LoadedTableExtends(pairs, db);
    AliasesSourced(pairs, db);
    var add := Aliases(pairs, db);
    forall e | e in add ensures Shadowed(db, e) || !Hits(e, Lower(text)) {
      var i :| 0 <= i < |add| && add[i] == e;
      var j :| 0 <= j < |db| && e.rec == db[j].rec && IsAliasOf(pairs, e.key, db[j].key);
      if e.key == Title(db[j].key) {
        assert db[j] in db;
      } else {
        var p :| 0 <= p < |pairs| && Contains(db[j].key, pairs[p].0) && e.key == pairs[p].1;
        assert !KeyHits(pairs[p].1, Lower(text));
      }
    }
    ExtraEntriesInvisible(db, add, text);
  }

  /** A key that begins and ends with word characters cannot match where a word
      character follows it, so `mbare` is not found inside `mbarexyz`. */
  lemma NotInsideLongerWord(k: string, t: string, i: nat)
    requires |k| > 0 && IsWordChar(k[|k| - 1])
    requires OccursAt(k, t, i) && i + |k| < |t| && IsWordChar(t[i + |k|])
    ensures !WholeWordAt(k, t, i)
  {
    assert t[i + |k| - 1] == k[|k| - 1];
  }
}
