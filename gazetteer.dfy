/** The gazetteer built by `load_extended_database`: an insertion-ordered dictionary
    from place names to records, the dictionary operations it uses, and the loop that
    adds a title-cased variant of every name and a few accent variants. */
module Gazetteer {
  import opened Text

  datatype Kind = Slum | City | Country

  /** A latitude or longitude in ten-thousandths of a degree. Every coordinate literal
      of the table has four decimals, so this is exact; the model never computes with it. */
  datatype Coord = Coord(e4: int)

  /** One value of the dictionary: `{'lat', 'lon', 'type', 'city', 'country'}`. */
  datatype Record = Record(lat: Coord, lon: Coord, kind: Kind, city: string, country: string)

  datatype Entry = Entry(key: string, rec: Record)

  /** A Python dictionary iterates in insertion order, so it is a sequence of entries
      whose keys are distinct. */
  ghost predicate DistinctKeys(t: seq<Entry>)
  {
    forall i, j :: 0 <= i < j < |t| ==> t[i].key != t[j].key
  }

  predicate HasKey(t: seq<Entry>, k: string)
  {
    exists i | 0 <= i < |t| :: t[i].key == k
  }

  /** `d.get(k)` */
  function Lookup(t: seq<Entry>, k: string): (r: Option<Record>)
    ensures r.None? <==> !HasKey(t, k)
    ensures forall i :: 0 <= i < |t| && t[i].key == k && (forall j :: 0 <= j < i ==> t[j].key != k)
              ==> r == Some(t[i].rec)
  {
    if t == [] then None
    else if t[0].key == k then Some(t[0].rec)
    else
      assert forall i :: 1 <= i < |t| ==> t[1..][i - 1] == t[i];
      Lookup(t[1..], k)
  }

  lemma LookupAt(t: seq<Entry>, i: nat)
    requires DistinctKeys(t) && i < |t|
    ensures Lookup(t, t[i].key) == Some(t[i].rec)
  {
  }

  /** `d[k] = v`: an existing key keeps its place and takes the new value; a new key
      goes at the end. */
  function Put(t: seq<Entry>, k: string, v: Record): (r: seq<Entry>)
    requires DistinctKeys(t)
    ensures DistinctKeys(r)
    ensures |r| == if HasKey(t, k) then |t| else |t| + 1
    ensures forall i :: 0 <= i < |t| ==> r[i] == if t[i].key == k then Entry(k, v) else t[i]
    ensures !HasKey(t, k) ==> r == t + [Entry(k, v)]
  {
    if t == [] then [Entry(k, v)]
    else if t[0].key == k then [Entry(k, v)] + t[1..]
    else [t[0]] + Put(t[1..], k, v)
  }

  lemma LookupPut(t: seq<Entry>, k: string, v: Record, k': string)
    requires DistinctKeys(t)
    ensures Lookup(Put(t, k, v), k') == if k' == k then Some(v) else Lookup(t, k')
  {
    var r := Put(t, k, v);
    if k' == k {
      if HasKey(t, k) {
        var i :| 0 <= i < |t| && t[i].key == k;
        LookupAt(r, i);
      } else {
        LookupAt(r, |t|);
      }
    } else if HasKey(t, k') {
      var i :| 0 <= i < |t| && t[i].key == k';
      LookupAt(r, i);
      LookupAt(t, i);
    } else {
      assert !HasKey(r, k');
    }
  }

  /** `t.update(u)`: the entries of `u` assigned into `t` in order. */
  function Update(t: seq<Entry>, u: seq<Entry>): (r: seq<Entry>)
    requires DistinctKeys(t)
    ensures DistinctKeys(r)
  {
    if u == [] then t
    else Put(Update(t, u[..|u| - 1]), u[|u| - 1].key, u[|u| - 1].rec)
  }

  /** When no key of `u` is already in `t` (and `u` is itself a dictionary), updating
      only appends. */
  lemma {:induction false} UpdateFresh(t: seq<Entry>, u: seq<Entry>)
    requires DistinctKeys(t + u)
    ensures DistinctKeys(t)
    ensures Update(t, u) == t + u
  {
    assert forall i :: 0 <= i < |t| ==> (t + u)[i] == t[i];
    if u != [] {
      var u' := u[..|u| - 1];
      assert t + u == (t + u') + [u[|u| - 1]];
      assert forall i :: 0 <= i < |t + u'| ==> (t + u')[i] == (t + u)[i];
      UpdateFresh(t, u');
      assert !HasKey(t + u', u[|u| - 1].key) by {
        forall i | 0 <= i < |t + u'| ensures (t + u')[i].key != u[|u| - 1].key {
          assert (t + u)[|t + u| - 1] == u[|u| - 1];
        }
      }
    }
  }

  /** The eight accent pairs of the alias loop: when a key contains the first string,
      the second is added as a variant of it (the first seven drop an accent, the last
      adds one). The accented spellings are kept exactly as the table writes them. */
  const AccentPairs: seq<(string, string)> := [
    ("s√£o paulo", "sao paulo"),
    ("bogot√°", "bogota"),
    ("ciudad bol√≠var", "ciudad bolivar"),
    ("ciudad nezahualc√≥yotl", "ciudad nezahualcoyotl"),
    ("favela da mar√©", "favela da mare"),
    ("yaound√©", "yaounde"),
    ("medell√≠n", "medellin"),
    ("asuncion", "asunci√≥n")
  ]

  /** The first `n` accent tests of the alias loop, for the key `name`. */
  function AccentAliases(pairs: seq<(string, string)>, add: seq<Entry>, name: string, data: Record, n: nat): (r: seq<Entry>)
    requires DistinctKeys(add) && n <= |pairs|
    ensures DistinctKeys(r)
  {
    if n == 0 then add
    else
      var a := AccentAliases(pairs, add, name, data, n - 1);
      if Contains(name, pairs[n - 1].0) then Put(a, pairs[n - 1].1, data) else a
  }

  /** One pass of the alias loop over the entry `e`. */
  function AliasStep(pairs: seq<(string, string)>, add: seq<Entry>, e: Entry): (r: seq<Entry>)
    requires DistinctKeys(add)
    ensures DistinctKeys(r)
  {
    var a := if !HasKey(add, e.key) then Put(add, Title(e.key), e.rec) else add;
    AccentAliases(pairs, a, e.key, e.rec, |pairs|)
  }

  /** `additional_entries` after the alias loop has run over `db`. */
  function Aliases(pairs: seq<(string, string)>, db: seq<Entry>): (r: seq<Entry>)
    ensures DistinctKeys(r)
  {
    if db == [] then [] else AliasStep(pairs, Aliases(pairs, db[..|db| - 1]), db[|db| - 1])
  }

  /** The accent tests of one pass of the alias loop, in the order of `pairs`: each
      pair whose first string is in `name` maps its second string to `data`. */
  method AddAccentVariants(pairs: seq<(string, string)>, add: seq<Entry>, name: string, data: Record)
    returns (additional: seq<Entry>)
    requires DistinctKeys(add)
    ensures additional == AccentAliases(pairs, add, name, data, |pairs|)
  {
    additional := add;
    var p := 0;
    while p < |pairs|
      invariant 0 <= p <= |pairs|
      invariant additional == AccentAliases(pairs, add, name, data, p)
    {
      if Contains(name, pairs[p].0) {
        additional := Put(additional, pairs[p].1, data);
      }
      p := p + 1;
    }
  }

  /** One pass of the alias loop: the title-cased variant of a key not yet among the
      variants, then the accent tests. */
  method AliasPass(pairs: seq<(string, string)>, add: seq<Entry>, e: Entry) returns (additional: seq<Entry>)
    requires DistinctKeys(add)
    ensures additional == AliasStep(pairs, add, e)
  {
    var name, data := e.key, e.rec;
    additional := add;
    if !HasKey(additional, name) {
      additional := Put(additional, Title(name), data);
    }
    additional := AddAccentVariants(pairs, additional, name, data);
  }

  /** `location_db.update(additional_entries)`: the entries assigned in order. */
  method Merge(db: seq<Entry>, additional: seq<Entry>) returns (locationDb: seq<Entry>)
    requires DistinctKeys(db)
    ensures locationDb == Update(db, additional)
  {
    locationDb := db;
    var j := 0;
    while j < |additional|
      invariant 0 <= j <= |additional|
      invariant locationDb == Update(db, additional[..j])
    {
      assert additional[..j + 1][..j] == additional[..j];
      locationDb := Put(locationDb, additional[j].key, additional[j].rec);
      j := j + 1;
    }
    assert additional[..|additional|] == additional;
  }

  /** The alias loop of `load_extended_database`: collect the variants, then merge
      them into the table. The accent tests are the pairs `pairs`, in order; the
      source's eight tests are `AccentPairs`. */
  method LoadAliases(pairs: seq<(string, string)>, db: seq<Entry>) returns (locationDb: seq<Entry>)
    requires DistinctKeys(db)
    ensures locationDb == Update(db, Aliases(pairs, db))
  {
    var additional: seq<Entry> := [];
    var i := 0;
    while i < |db|
      invariant 0 <= i <= |db|
      invariant additional == Aliases(pairs, db[..i])
    {
      additional := AliasPass(pairs, additional, db[i]);
      AliasesStep(pairs, db, i);
      i := i + 1;
    }
    assert db[..|db|] == db;
    locationDb := Merge(db, additional);
  }

  lemma AliasesStep(pairs: seq<(string, string)>, db: seq<Entry>, i: nat)
    requires i < |db|
    ensures Aliases(pairs, db[..i + 1]) == AliasStep(pairs, Aliases(pairs, db[..i]), db[i])
  {
    assert db[..i + 1][..i] == db[..i];
  }

  /** `a` is one of the variants the alias loop derives from the key `k`. */
  predicate IsAliasOf(pairs: seq<(string, string)>, a: string, k: string)
  {
    a == Title(k)
    || exists p | 0 <= p < |pairs| :: Contains(k, pairs[p].0) && a == pairs[p].1
  }

  /** Every entry of `add` is a variant of some entry of `db` and carries that entry's record. */
  ghost predicate Sourced(pairs: seq<(string, string)>, add: seq<Entry>, db: seq<Entry>)
  {
    forall i :: 0 <= i < |add| ==>
      exists j :: 0 <= j < |db| && add[i].rec == db[j].rec && IsAliasOf(pairs, add[i].key, db[j].key)
  }

  lemma PutSourced(pairs: seq<(string, string)>, add: seq<Entry>, k: string, v: Record, db: seq<Entry>, j: nat)
    requires DistinctKeys(add) && Sourced(pairs, add, db)
    requires j < |db| && v == db[j].rec && IsAliasOf(pairs, k, db[j].key)
    ensures Sourced(pairs, Put(add, k, v), db)
  {
    var r := Put(add, k, v);
    forall i | 0 <= i < |r|
      ensures exists j' :: 0 <= j' < |db| && r[i].rec == db[j'].rec && IsAliasOf(pairs, r[i].key, db[j'].key)
    {
      if i < |add| && add[i].key != k {
        assert r[i] == add[i];
      } else {
        assert r[i] == Entry(k, v);
        assert r[i].rec == db[j].rec && IsAliasOf(pairs, r[i].key, db[j].key);
      }
    }
  }

  lemma {:induction false} AccentAliasesSourced(pairs: seq<(string, string)>, add: seq<Entry>, db: seq<Entry>, j: nat, n: nat)
    requires DistinctKeys(add) && Sourced(pairs, add, db) && j < |db| && n <= |pairs|
    ensures Sourced(pairs, AccentAliases(pairs, add, db[j].key, db[j].rec, n), db)
  {
    if n > 0 {
      AccentAliasesSourced(pairs, add, db, j, n - 1);
      var a := AccentAliases(pairs, add, db[j].key, db[j].rec, n - 1);
      if Contains(db[j].key, pairs[n - 1].0) {
        PutSourced(pairs, a, pairs[n - 1].1, db[j].rec, db, j);
      }
    }
  }

  /** Every variant the loop adds maps to the very record of the key it was derived from. */
  lemma {:induction false} AliasesSourced(pairs: seq<(string, string)>, db: seq<Entry>)
    ensures Sourced(pairs, Aliases(pairs, db), db)
  {
    if db != [] {
      var init := db[..|db| - 1];
      AliasesSourced(pairs, init);
      SourcedInLonger(pairs, Aliases(pairs, init), init, db);
      AliasStepSourced(pairs, Aliases(pairs, init), db, |db| - 1);
      assert Aliases(pairs, db) == AliasStep(pairs, Aliases(pairs, init), db[|db| - 1]);
    }
  }

  /** Being derived from a prefix of `db` is being derived from `db`. */
  lemma SourcedInLonger(pairs: seq<(string, string)>, add: seq<Entry>, init: seq<Entry>, db: seq<Entry>)
    requires init <= db && Sourced(pairs, add, init)
    ensures Sourced(pairs, add, db)
  {
    forall i | 0 <= i < |add|
      ensures exists j :: 0 <= j < |db| && add[i].rec == db[j].rec && IsAliasOf(pairs, add[i].key, db[j].key)
    {
      var j :| 0 <= j < |init| && add[i].rec == init[j].rec && IsAliasOf(pairs, add[i].key, init[j].key);
      assert init[j] == db[j];
    }
    assert forall i :: 0 <= i < |add| ==>
      exists j :: 0 <= j < |db| && add[i].rec == db[j].rec && IsAliasOf(pairs, add[i].key, db[j].key);
  }

  /** One pass of the alias loop over `db[j]` keeps every variant derived from `db`. */
  lemma AliasStepSourced(pairs: seq<(string, string)>, add: seq<Entry>, db: seq<Entry>, j: nat)
    requires DistinctKeys(add) && Sourced(pairs, add, db) && j < |db|
    ensures Sourced(pairs, AliasStep(pairs, add, db[j]), db)
  {
    var a := if !HasKey(add, db[j].key) then Put(add, Title(db[j].key), db[j].rec) else add;
    if !HasKey(add, db[j].key) {
      PutSourced(pairs, add, Title(db[j].key), db[j].rec, db, j);
    }
    AccentAliasesSourced(pairs, a, db, j, |pairs|);
  }

  /** The accent pairs only ever add lower-case spellings. */
  ghost predicate LowerTargets(pairs: seq<(string, string)>)
  {
    forall p :: 0 <= p < |pairs| ==> NoUpper(pairs[p].1)
  }

  /** What the table's keys are like: lower case, with a letter, and never one of the
      spellings that the accent pairs add. */
  ghost predicate PlainKeys(pairs: seq<(string, string)>, db: seq<Entry>)
  {
    forall i :: 0 <= i < |db| ==>
      NoUpper(db[i].key) && HasLetter(db[i].key)
      && forall p :: 0 <= p < |pairs| ==> db[i].key != pairs[p].1
  }

  /** No key the alias loop adds is already a key of the table. */
  lemma AliasKeysAreNew(pairs: seq<(string, string)>, db: seq<Entry>)
    requires PlainKeys(pairs, db)
    ensures forall i, j :: 0 <= i < |Aliases(pairs, db)| && 0 <= j < |db| ==> Aliases(pairs, db)[i].key != db[j].key
  {
    AliasesSourced(pairs, db);
    var add := Aliases(pairs, db);
    forall i, j | 0 <= i < |add| && 0 <= j < |db| ensures add[i].key != db[j].key {
      var j' :| 0 <= j' < |db| && add[i].rec == db[j'].rec && IsAliasOf(pairs, add[i].key, db[j'].key);
      if add[i].key == Title(db[j'].key) {
        TitleHasUpper(db[j'].key);
      }
    }
  }

  /** For such a table the merge overwrites no original entry: the loaded table is the
      original followed by the variants. */
  lemma LoadedTableExtends(pairs: seq<(string, string)>, db: seq<Entry>)
    requires DistinctKeys(db) && PlainKeys(pairs, db)
    ensures Update(db, Aliases(pairs, db)) == db + Aliases(pairs, db)
  {
    AliasKeysAreNew(pairs, db);
    var add := Aliases(pairs, db);
    assert DistinctKeys(db + add) by {
      forall i, j | 0 <= i < j < |db + add| ensures (db + add)[i].key != (db + add)[j].key {
        if j < |db| {
        } else if i >= |db| {
          assert (db + add)[i] == add[i - |db|] && (db + add)[j] == add[j - |db|];
        } else {
          assert (db + add)[j] == add[j - |db|];
        }
      }
    }
    UpdateFresh(db, add);
  }

  /** Keys carrying an upper-case letter are left alone by the accent tests. */
  lemma {:induction false} AccentAliasesKeepUpper(pairs: seq<(string, string)>, add: seq<Entry>, name: string, data: Record, n: nat, k: string)
    requires DistinctKeys(add) && n <= |pairs| && LowerTargets(pairs) && !NoUpper(k)
    ensures Lookup(AccentAliases(pairs, add, name, data, n), k) == Lookup(add, k)
  {
    if n == 0 {
      assert AccentAliases(pairs, add, name, data, n) == add;
    } else {
      AccentAliasesKeepUpper(pairs, add, name, data, n - 1, k);
      AccentStepKeepsUpper(pairs, add, name, data, n, k);
    }
  }

  /** The `n`-th accent test leaves keys with an upper-case letter alone. */
  lemma AccentStepKeepsUpper(pairs: seq<(string, string)>, add: seq<Entry>, name: string, data: Record, n: nat, k: string)
    requires DistinctKeys(add) && 0 < n <= |pairs| && LowerTargets(pairs) && !NoUpper(k)
    ensures Lookup(AccentAliases(pairs, add, name, data, n), k)
            == Lookup(AccentAliases(pairs, add, name, data, n - 1), k)
  {
    var a := AccentAliases(pairs, add, name, data, n - 1);
    var to := pairs[n - 1].1;
    if Contains(name, pairs[n - 1].0) {
      assert NoUpper(to) && k != to;
      LookupPut(a, to, data, k);
    }
  }

  /** A lower-case key that no accent pair adds is not among the variants. */
  lemma PlainKeyNotAliased(pairs: seq<(string, string)>, db: seq<Entry>, k: string)
    requires PlainKeys(pairs, db)
    requires NoUpper(k) && forall p :: 0 <= p < |pairs| ==> k != pairs[p].1
    ensures !HasKey(Aliases(pairs, db), k)
  {
    AliasesSourced(pairs, db);
    var add := Aliases(pairs, db);
    forall i | 0 <= i < |add| ensures add[i].key != k {
      var j :| 0 <= j < |db| && add[i].rec == db[j].rec && IsAliasOf(pairs, add[i].key, db[j].key);
      if add[i].key == Title(db[j].key) {
        TitleHasUpper(db[j].key);
      }
    }
  }

  /** One pass of the loop over a new plain key `e.key` adds its title-cased variant
      and keeps the title-cased variants already there. */
  lemma AliasStepKeepsTitle(pairs: seq<(string, string)>, prev: seq<Entry>, e: Entry, k: string, v: Record)
    requires DistinctKeys(prev) && LowerTargets(pairs) && !HasKey(prev, e.key)
    requires NoUpper(k) && HasLetter(k) && NoUpper(e.key)
    requires k == e.key ==> v == e.rec
    requires k != e.key ==> Lookup(prev, Title(k)) == Some(v)
    ensures Lookup(AliasStep(pairs, prev, e), Title(k)) == Some(v)
  {
    var a := Put(prev, Title(e.key), e.rec);
    TitleHasUpper(k);
    AccentAliasesKeepUpper(pairs, a, e.key, e.rec, |pairs|, Title(k));
    LookupPut(prev, Title(e.key), e.rec, Title(k));
    if k != e.key {
      LowerOfNoUpper(k);
      LowerOfNoUpper(e.key);
      assert Lower(Title(k)) != Lower(Title(e.key));
    }
  }

  /** For such a table every key gets its title-cased variant, mapped to its own record. */
  lemma {:induction false} EveryKeyGetsTitleVariant(pairs: seq<(string, string)>, db: seq<Entry>)
    requires DistinctKeys(db) && PlainKeys(pairs, db) && LowerTargets(pairs)
    ensures forall i :: 0 <= i < |db| ==> Lookup(Aliases(pairs, db), Title(db[i].key)) == Some(db[i].rec)
  {
    if db != [] {
      var n := |db| - 1;
      var init := db[..n];
      assert forall i :: 0 <= i < n ==> init[i] == db[i];
      EveryKeyGetsTitleVariant(pairs, init);
      forall i | 0 <= i < |db| ensures Lookup(Aliases(pairs, db), Title(db[i].key)) == Some(db[i].rec) {
        TitleVariantStep(pairs, db, i);
      }
    }
  }

  /** The pass over the last key adds its variant and keeps those of the keys before. */
  lemma TitleVariantStep(pairs: seq<(string, string)>, db: seq<Entry>, i: nat)
    requires DistinctKeys(db) && PlainKeys(pairs, db) && LowerTargets(pairs) && i < |db|
    requires i < |db| - 1 ==>
               Lookup(Aliases(pairs, db[..|db| - 1]), Title(db[i].key)) == Some(db[i].rec)
    ensures Lookup(Aliases(pairs, db), Title(db[i].key)) == Some(db[i].rec)
  {
    var n := |db| - 1;
    var init := db[..n];
    var prev := Aliases(pairs, init);
    assert PlainKeys(pairs, init) by {
      assert forall j :: 0 <= j < n ==> init[j] == db[j];
    }
    PlainKeyNotAliased(pairs, init, db[n].key);
    if i < n {
      assert db[i].key != db[n].key;
    }
    AliasStepKeepsTitle(pairs, prev, db[n], db[i].key, db[i].rec);
  }

  lemma AccentPairsAreLower()
    ensures LowerTargets(AccentPairs)
  {
    assert NoUpper("sao paulo");
    assert NoUpper("bogota");
    assert NoUpper("ciudad bolivar");
    assert NoUpper("ciudad nezahualcoyotl");
    assert NoUpper("favela da mare");
    assert NoUpper("yaounde");
    assert NoUpper("medellin");
    assert NoUpper("asunci√≥n");
  }

  /** A few rows of the table, in the table's order. */
  const Rows: seq<Entry> := [
    Entry("kibera", Record(Coord(-12921), Coord(368219), Slum, "Nairobi", "Kenya")),
    Entry("mathare", Record(Coord(-12709), Coord(368540), Slum, "Nairobi", "Kenya")),
    Entry("mbare", Record(Coord(-178252), Coord(310335), Slum, "Harare", "Zimbabwe")),
    Entry("lagos", Record(Coord(65244), Coord(33792), City, "Lagos", "Nigeria")),
    Entry("nairobi", Record(Coord(-12864), Coord(368172), City, "Nairobi", "Kenya")),
    Entry("harare", Record(Coord(-178252), Coord(310335), City, "Harare", "Zimbabwe")),
    Entry("s√£o paulo", Record(Coord(-235505), Coord(-466333), City, "S√£o Paulo", "Brazil")),
    Entry("asuncion", Record(Coord(-252637), Coord(-575759), City, "Asunci√≥n", "Paraguay")),
    Entry("nigeria", Record(Coord(90820), Coord(86753), Country, "Abuja", "Nigeria")),
    Entry("kenya", Record(Coord(-236), Coord(379062), Country, "Nairobi", "Kenya")),
    Entry("ethiopia", Record(Coord(91450), Coord(404897), Country, "Addis Ababa", "Ethiopia")),
    Entry("zimbabwe", Record(Coord(-190154), Coord(291549), Country, "Harare", "Zimbabwe"))
  ]

  /** Every spelling the accent pairs add is told apart from the sample keys by its
      first letter and its length. */
  lemma AccentTargetShape(p: nat)
    requires p < |AccentPairs|
    ensures var s := AccentPairs[p].1;
      || (|s| == 9 && (s[0] == 's' || s[0] == 'a'))
      || (|s| == 6 && s[0] == 'b') || (|s| == 14 && (s[0] == 'c' || s[0] == 'f'))
      || (|s| == 21 && s[0] == 'c') || (|s| == 7 && s[0] == 'y') || (|s| == 8 && s[0] == 'm')
  {
  }

  /** A sample key is plain: lower case, with a letter, and no accent target. */
  lemma RowPlain(e: Entry, n: nat, c: char)
    requires NoUpper(e.key) && |e.key| == n && n > 0 && e.key[0] == c && IsLetter(c)
    requires !(n == 9 && (c == 's' || c == 'a')) && !(n == 6 && c == 'b')
    requires !(n == 14 && (c == 'c' || c == 'f')) && !(n == 21 && c == 'c')
    requires !(n == 7 && c == 'y') && !(n == 8 && c == 'm')
    ensures NoUpper(e.key) && HasLetter(e.key)
    ensures forall p :: 0 <= p < |AccentPairs| ==> e.key != AccentPairs[p].1
  {
    forall p | 0 <= p < |AccentPairs| ensures e.key != AccentPairs[p].1 {
      AccentTargetShape(p);
    }
  }

  lemma RowsDistinct(db: seq<Entry>)
    requires db == Rows
    ensures DistinctKeys(db)
  {
    forall i, j | 0 <= i < j < |db| ensures db[i].key != db[j].key {
      assert db[i].key[0] != db[j].key[0] || |db[i].key| != |db[j].key| || db[i].key[1] != db[j].key[1];
    }
  }

  lemma RowsPlain(db: seq<Entry>)
    requires db == Rows
    ensures PlainKeys(AccentPairs, db)
  {
    forall i | 0 <= i < |db|
      ensures NoUpper(db[i].key) && HasLetter(db[i].key)
      ensures forall p :: 0 <= p < |AccentPairs| ==> db[i].key != AccentPairs[p].1
    {
      if i == 0 { RowPlain(db[i], 6, 'k'); }
      else if i == 1 { RowPlain(db[i], 7, 'm'); }
      else if i == 2 { RowPlain(db[i], 5, 'm'); }
      else if i == 3 { RowPlain(db[i], 5, 'l'); }
      else if i == 4 { RowPlain(db[i], 7, 'n'); }
      else if i == 5 { RowPlain(db[i], 6, 'h'); }
      else if i == 6 { RowPlain(db[i], 10, 's'); }
      else if i == 7 { RowPlain(db[i], 8, 'a'); }
      else if i == 8 { RowPlain(db[i], 7, 'n'); }
      else if i == 9 { RowPlain(db[i], 5, 'k'); }
      else if i == 10 { RowPlain(db[i], 8, 'e'); }
      else { RowPlain(db[i], 8, 'z'); }
    }
  }

  /** The sample rows meet the conditions above, so loading them appends the variants
      without overwriting a row. */
  lemma RowsLoad(db: seq<Entry>)
    requires db == Rows
    ensures DistinctKeys(db) && Update(db, Aliases(AccentPairs, db)) == db + Aliases(AccentPairs, db)
  {
    RowsDistinct(db);
    RowsPlain(db);
    LoadedTableExtends(AccentPairs, db);
  }

  /** Loading the sample rows gives `kibera` its `Kibera`, with the same record. */
  lemma RowsKiberaVariant(db: seq<Entry>)
    requires db == Rows
    ensures Lookup(Aliases(AccentPairs, db), Title("kibera")) == Some(db[0].rec)
  {
    RowsDistinct(db);
    RowsPlain(db);
    AccentPairsAreLower();
    EveryKeyGetsTitleVariant(AccentPairs, db);
    assert db[0].key == "kibera";
  }
}
