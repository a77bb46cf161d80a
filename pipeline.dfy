/** `process_articles`: every article is resolved against the gazetteer; those that
    resolve to a location become map events, in input order, carrying the event type,
    the affected count and the location's coordinates. */
module Pipeline {
  import opened Text
  import opened Gazetteer
  import Resolver
  import Classifier
  import Counts

  /** The fields of an article dict the loop reads. `fullText` is `None` when the
      dict has no `full_text` key. */
  datatype Article = Article(title: string, description: string, content: string,
                             url: string, publishedAt: string, source: string,
                             fullText: Option<string>, searchQuery: string)

  /** The event dict, with its `coordinates` sub-dict flattened. */
  datatype Event = Event(title: string, description: string, url: string, date: string,
                         source: string, settlement: Option<string>, city: Option<string>,
                         country: Option<string>, lat: Coord, lon: Coord, address: string,
                         kind: Kind, eventType: string, affected: Option<nat>,
                         fullText: string, foundBy: string)

  /** `article.get('full_text', f"{title} {description} {content}")` */
  function FullText(a: Article): string
  {
    match a.fullText
    case Some(t) => t
    case None => a.title + " " + a.description + " " + a.content
  }

  /** `s[:n]` */
  function Take(s: string, n: nat): (r: string)
    ensures |r| <= n && r <= s
    ensures |s| <= n ==> r == s
    ensures |s| > n ==> |r| == n
  {
    if |s| <= n then s else s[..n]
  }

  /** `s.split('T')[0]`: everything before the first `T`. */
  function BeforeT(s: string): (r: string)
    ensures r <= s && 'T' !in r
    ensures |r| < |s| ==> s[|r|] == 'T'
  {
    if s == [] || s[0] == 'T' then []
    else
      var r := [s[0]] + BeforeT(s[1..]);
      assert r[1..] == BeforeT(s[1..]);
      r
  }

  /** The published date: the text before the first `T` when there is one, otherwise
      the first 10 characters. */
  function EventDate(raw: string): (r: string)
    ensures r <= raw && 'T' !in r
    ensures 'T' in raw ==> |r| < |raw| && raw[|r|] == 'T'
    ensures 'T' !in raw ==> |r| == if |raw| < 10 then |raw| else 10
  {
    if 'T' in raw then
      var r := BeforeT(raw);
      assert r != raw;
      r
    else
      var r := Take(raw, 10);
      assert forall i :: 0 <= i < |r| ==> r[i] == raw[i];
      r
  }

  /** A Python string is true when it is present and not empty. */
  predicate Truthy(o: Option<string>)
  {
    o.Some? && o.value != ""
  }

  /** The display address: the title-cased settlement with its city and country, else
      the title-cased city with its country, else the country alone. */
  function Address(loc: Resolver.Location, rec: Record): string
  {
    if Truthy(loc.settlement) then Title(loc.settlement.value) + ", " + rec.city + ", " + rec.country
    else if Truthy(loc.city) then Title(loc.city.value) + ", " + rec.country
    else rec.country
  }

  /** The event one article contributes, if its text resolves to a location. */
  function EventOf(db: seq<Entry>, a: Article): (r: Option<Event>)
    ensures r.Some? <==> Resolver.ExtractLocation(db, FullText(a)).record.Some?
  {
    var text := FullText(a);
    var loc := Resolver.ExtractLocation(db, text);
    match loc.record
    case None => None
    case Some(rec) =>
      Some(Event(
        Take(a.title, 150),
        if a.description != "" then Take(a.description, 200) else "",
        a.url, EventDate(a.publishedAt), a.source,
        loc.settlement, loc.city, loc.country, rec.lat, rec.lon, Address(loc, rec), rec.kind,
        Classifier.ExtractEventType(Classifier.EventKeywords, text),
        Counts.ExtractAffectedCount(text),
        text, a.searchQuery))
  }

  /** An event carries the coordinates and kind of the resolved record, the resolver's
      three names and the address built from them, the first 150 characters of the
      title and the first 200 of a non-empty description, the published date, the
      event type and the affected count of the article's text, and the article's own
      URL, source, text and query. */
  lemma EventFields(db: seq<Entry>, a: Article)
    requires EventOf(db, a).Some?
    ensures var loc, e := Resolver.ExtractLocation(db, FullText(a)), EventOf(db, a).value;
      && e.lat == loc.record.value.lat && e.lon == loc.record.value.lon
      && e.kind == loc.record.value.kind
      && e.settlement == loc.settlement && e.city == loc.city && e.country == loc.country
      && e.address == Address(loc, loc.record.value)
    ensures var e := EventOf(db, a).value;
      && e.title == Take(a.title, 150)
      && e.description == (if a.description != "" then Take(a.description, 200) else "")
      && e.date == EventDate(a.publishedAt)
      && e.url == a.url && e.source == a.source
      && e.fullText == FullText(a) && e.foundBy == a.searchQuery
    ensures var e := EventOf(db, a).value;
      && |e.title| <= 150 && e.title <= a.title
      && |e.description| <= 200 && e.description <= a.description
      && e.date <= a.publishedAt && 'T' !in e.date
      && e.eventType == Classifier.ExtractEventType(Classifier.EventKeywords, FullText(a))
      && e.eventType in Classifier.Tags
      && e.affected == Counts.ExtractAffectedCount(FullText(a))
  {
    Classifier.ResultIsTag(Classifier.EventKeywords, FullText(a));
  }

  /** An article whose text resolves to a settlement becomes an event at the
      settlement's coordinates, addressed `Settlement, City, Country` with the key
      title-cased. */
  lemma SettlementEvent(db: seq<Entry>, a: Article, i: nat)
    requires i < |db| && db[i].key != ""
    requires Resolver.ExtractLocation(db, FullText(a)) == Resolver.SettlementResult(db[i])
    ensures EventOf(db, a).Some?
    ensures var e := EventOf(db, a).value;
      && e.lat == db[i].rec.lat && e.lon == db[i].rec.lon && e.kind == db[i].rec.kind
      && e.address == Title(db[i].key) + ", " + db[i].rec.city + ", " + db[i].rec.country
      && e.eventType == Classifier.ExtractEventType(Classifier.EventKeywords, FullText(a))
      && e.affected == Counts.ExtractAffectedCount(FullText(a))
  {
  }

  /** An article whose text resolves to a city becomes an event at the city's
      coordinates, addressed `City, Country` with the key title-cased. */
  lemma CityEvent(db: seq<Entry>, a: Article, i: nat)
    requires i < |db| && db[i].key != ""
    requires Resolver.ExtractLocation(db, FullText(a)) == Resolver.CityResult(db[i])
    ensures EventOf(db, a).Some?
    ensures var e := EventOf(db, a).value;
      && e.lat == db[i].rec.lat && e.lon == db[i].rec.lon && e.kind == db[i].rec.kind
      && e.settlement.None? && e.city == Some(db[i].key)
      && e.address == Title(db[i].key) + ", " + db[i].rec.country
  {
  }

  /** The events a list of articles yields, in input order. */
  function EventsOf(db: seq<Entry>, arts: seq<Article>): (r: seq<Event>)
    ensures |r| <= |arts|
  {
    if arts == [] then [] else EventsOf(db, arts[..|arts| - 1]) + EventList(db, arts[|arts| - 1])
  }

  /** The events of one article: none or one. */
  function EventList(db: seq<Entry>, a: Article): (r: seq<Event>)
    ensures |r| <= 1
  {
    match EventOf(db, a)
    case Some(e) => [e]
    case None => []
  }

  /** The loop of `process_articles`: it returns the events and the number of
      articles that were geocoded. */
  method ProcessArticles(db: seq<Entry>, articles: seq<Article>)
    returns (events: seq<Event>, geocoded: nat)
    ensures events == EventsOf(db, articles)
    ensures geocoded == |events|
  {
    events := [];
    geocoded := 0;
    var i := 0;
    while i < |articles|
      invariant 0 <= i <= |articles|
      invariant events == EventsOf(db, articles[..i])
      invariant geocoded == |events|
    {
      events, geocoded := ProcessOne(db, articles, i, events, geocoded);
      i := i + 1;
    }
    assert articles[..i] == articles;
  }

  /** One turn of the loop: the article at `i` adds its event, if it has one, and
      counts as geocoded. */
  method ProcessOne(db: seq<Entry>, articles: seq<Article>, i: nat, events: seq<Event>, geocoded: nat)
    returns (events': seq<Event>, geocoded': nat)
    requires i < |articles| && events == EventsOf(db, articles[..i]) && geocoded == |events|
    ensures events' == EventsOf(db, articles[..i + 1]) && geocoded' == |events'|
  {
    EventsOfStep(db, articles, i);
    events', geocoded' := events, geocoded;
    var e := EventOf(db, articles[i]);
    if e.Some? {
      geocoded' := geocoded' + 1;
      events' := events' + [e.value];
    }
  }

  /** One more article adds its event, if any, at the end. */
  lemma EventsOfStep(db: seq<Entry>, arts: seq<Article>, i: nat)
    requires i < |arts|
    ensures EventOf(db, arts[i]).Some? ==>
              EventsOf(db, arts[..i + 1]) == EventsOf(db, arts[..i]) + [EventOf(db, arts[i]).value]
    ensures EventOf(db, arts[i]).None? ==> EventsOf(db, arts[..i + 1]) == EventsOf(db, arts[..i])
  {
    assert arts[..i + 1][..i] == arts[..i];
  }

  /** Articles are processed one after another: the events of a concatenation are the
      events of the first part followed by those of the second. */
  lemma {:induction false} EventsOfAppend(db: seq<Entry>, x: seq<Article>, y: seq<Article>)
    ensures EventsOf(db, x + y) == EventsOf(db, x) + EventsOf(db, y)
  {
    if y == [] {
      assert x + y == x;
    } else {
      var y', a := y[..|y| - 1], y[|y| - 1];
      assert y == y' + [a];
      EventsOfAppend(db, x, y');
      EventsOfAppendStep(db, x, y', a);
    }
  }

  /** The step of the induction above: one more article at the end of `y`. */
  lemma EventsOfAppendStep(db: seq<Entry>, x: seq<Article>, y: seq<Article>, a: Article)
    requires EventsOf(db, x + y) == EventsOf(db, x) + EventsOf(db, y)
    ensures EventsOf(db, x + (y + [a])) == EventsOf(db, x) + EventsOf(db, y + [a])
  {
    SnocAssoc(x, y, a);
    EventsOfSnoc(db, x + y, a);
    EventsOfSnoc(db, y, a);
    AppendAssoc(EventsOf(db, x), EventsOf(db, y), EventList(db, a));
  }

  lemma SnocAssoc(x: seq<Article>, y: seq<Article>, a: Article)
    ensures x + (y + [a]) == (x + y) + [a]
  {
  }

  lemma AppendAssoc(p: seq<Event>, q: seq<Event>, r: seq<Event>)
    ensures p + q + r == p + (q + r)
  {
  }

  /** One more article adds its events at the end. */
  lemma EventsOfSnoc(db: seq<Entry>, s: seq<Article>, a: Article)
    ensures EventsOf(db, s + [a]) == EventsOf(db, s) + EventList(db, a)
  {
    assert (s + [a])[..|s|] == s;
  }

  /** A single article yields its event when it resolves and nothing otherwise. */
  lemma EventsOfOne(db: seq<Entry>, a: Article)
    ensures Resolver.ExtractLocation(db, FullText(a)).record.Some? ==>
              EventsOf(db, [a]) == [EventOf(db, a).value]
    ensures Resolver.ExtractLocation(db, FullText(a)).record.None? ==> EventsOf(db, [a]) == []
  {
    assert [a][..0] == [];
  }

  /** Every event stems from an article of the input. */
  lemma {:induction false} EventsFromArticles(db: seq<Entry>, arts: seq<Article>, k: nat)
    requires k < |EventsOf(db, arts)|
    ensures exists i :: 0 <= i < |arts| && EventOf(db, arts[i]) == Some(EventsOf(db, arts)[k])
  {
    var init := arts[..|arts| - 1];
    if k < |EventsOf(db, init)| {
      EventsFromArticles(db, init, k);
      var i :| 0 <= i < |init| && EventOf(db, init[i]) == Some(EventsOf(db, init)[k]);
      assert arts[i] == init[i];
    } else {
      assert EventOf(db, arts[|arts| - 1]) == Some(EventsOf(db, arts)[k]);
    }
  }

  /** The resolver's result has the city slot filled whenever it has a record. */
  lemma ResultOfEntry(db: seq<Entry>, text: string)
    ensures var loc := Resolver.ExtractLocation(db, text);
      loc.record.Some? ==>
        exists i :: (0 <= i < |db|
                     && (loc == Resolver.SettlementResult(db[i]) || loc == Resolver.CityResult(db[i])
                         || loc == Resolver.CountryResult(db[i])))
  {
    var t := Lower(text);
    Resolver.FirstHitOrNone(db, Slum, t);
    Resolver.FirstHitOrNone(db, City, t);
    Resolver.FirstHitOrNone(db, Country, t);
  }

  /** When every key and every record's city is non-empty, the city slot of a resolved
      article is non-empty too, so the bare-country address is never built: a country
      hit carries its record's city. */
  lemma CountryAddressUnreachable(db: seq<Entry>, a: Article)
    requires forall i :: 0 <= i < |db| ==> db[i].key != "" && db[i].rec.city != ""
    requires EventOf(db, a).Some?
    ensures Truthy(EventOf(db, a).value.city)
    ensures EventOf(db, a).value.address != Resolver.ExtractLocation(db, FullText(a)).record.value.country
  {
    ResultOfEntry(db, FullText(a));
    var loc := Resolver.ExtractLocation(db, FullText(a));
    var rec := loc.record.value;
    var addr := EventOf(db, a).value.address;
    assert |addr| > |rec.country|;
  }
}
