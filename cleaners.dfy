/** The maintenance cleaners: normalise every user, tile and faction record
    and sort out the records to delete. The store reads (`get_all`) become
    a parameter listing the records. */
module Cleaners {
  import opened Tiles
  import opened Permissions
  import opened Users
  import opened TileStore

  /** Upper case of one character, over ASCII letters. */
  function UpperChar(c: char): char
  {
    if 'a' <= c <= 'z' then (c as int - 32) as char else c
  }

  /** `to_uppercase`, character by character. */
  function ToUpper(s: string): string
  {
    seq(|s|, i requires 0 <= i < |s| => UpperChar(s[i]))
  }

  /** Upper-casing yields the empty string exactly for the empty string, and
      upper-casing twice is upper-casing once. */
  lemma ToUpperFacts(s: string)
    ensures ToUpper(s) == "" <==> s == ""
    ensures ToUpper(ToUpper(s)) == ToUpper(s)
  {
    assert |ToUpper(s)| == |s|;
  }

  // ---- Adjacent de-duplication (`Vec::dedup`) ----

  /** Keeps the first of every run of equal neighbours. */
  function Dedup<T(==)>(s: seq<T>): seq<T>
  {
    if s == [] then []
    else
      var d := Dedup(s[..|s| - 1]);
      if d != [] && d[|d| - 1] == s[|s| - 1] then d else d + [s[|s| - 1]]
  }

  /** No two neighbours are equal. */
  predicate NoAdjacentEqual<T(==)>(s: seq<T>)
  {
    forall i :: 0 <= i < |s| - 1 ==> s[i] != s[i + 1]
  }

  /** `a` can be obtained from `b` by deleting elements. */
  predicate SubseqOf<T(==)>(a: seq<T>, b: seq<T>)
    decreases |b|
  {
    a == [] ||
    (b != [] &&
      ((a[|a| - 1] == b[|b| - 1] && SubseqOf(a[..|a| - 1], b[..|b| - 1])) || SubseqOf(a, b[..|b| - 1])))
  }

  /** A de-duplicated list ends with the input's last element. */
  lemma {:induction false} DedupLast<T>(s: seq<T>)
    requires s != []
    ensures Dedup(s) != [] && Dedup(s)[|Dedup(s)| - 1] == s[|s| - 1]
  {
  }

  /** De-duplication leaves no equal neighbours. */
  lemma {:induction false} DedupNoAdjacent<T>(s: seq<T>)
    ensures NoAdjacentEqual(Dedup(s))
  {
    if s != [] {
      DedupNoAdjacent(s[..|s| - 1]);
    }
  }

  /** De-duplication keeps exactly the values of the input. */
  lemma {:induction false} DedupSameValues<T>(s: seq<T>, v: T)
    ensures v in Dedup(s) <==> v in s
  {
    if s != [] {
      var init := s[..|s| - 1];
      DedupSameValues(init, v);
      assert s == init + [s[|s| - 1]];
    }
  }

  /** De-duplication empties only the empty list. */
  lemma DedupEmpty<T>(s: seq<T>)
    ensures Dedup(s) == [] <==> s == []
  {
    if s != [] {
      DedupLast(s);
    }
  }

  /** De-duplication leaves a list unchanged exactly when it has no equal
      neighbours. */
  lemma {:induction false} DedupFixed<T>(s: seq<T>)
    ensures Dedup(s) == s <==> NoAdjacentEqual(s)
  {
    if NoAdjacentEqual(s) {
      if s != [] {
        var init := s[..|s| - 1];
        assert NoAdjacentEqual(init);
        DedupFixed(init);
        if |init| > 0 {
          assert s[|s| - 2] != s[|s| - 1];
        }
      }
    } else {
      DedupNoAdjacent(s);
    }
  }

  /** Dropping the last element of a subsequence keeps it a subsequence. */
  lemma {:induction false} SubseqDropLast<T>(a: seq<T>, b: seq<T>)
    requires a != [] && SubseqOf(a, b)
    ensures SubseqOf(a[..|a| - 1], b)
    decreases |b|
  {
    var a' := a[..|a| - 1];
    var b' := b[..|b| - 1];
    if a[|a| - 1] == b[|b| - 1] && SubseqOf(a', b') {
      if a' != [] {
        assert SubseqOf(a', b');
      }
    } else {
      SubseqDropLast(a, b');
    }
  }

  /** De-duplication only deletes elements: the result is a subsequence of
      the input. */
  lemma {:induction false} DedupSubseq<T>(s: seq<T>)
    ensures SubseqOf(Dedup(s), s)
  {
    if s != [] {
      var init := s[..|s| - 1];
      var d := Dedup(init);
      DedupSubseq(init);
      if d != [] && d[|d| - 1] == s[|s| - 1] {
        SubseqDropLast(d, init);
        assert d[..|d| - 1] == Dedup(s)[..|Dedup(s)| - 1];
      } else {
        assert (d + [s[|s| - 1]])[..|d|] == d;
      }
    }
  }

  // ---- Sorting permissions by name ----

  /** Lexicographic order on strings, as `String::cmp` orders them. */
  predicate StrLe(a: string, b: string)
    decreases |a|
  {
    a == [] || (b != [] && (a[0] < b[0] || (a[0] == b[0] && StrLe(a[1..], b[1..]))))
  }

  /** Position of a permission's name in alphabetical order. */
  function Rank(p: Permission): nat
  {
    match p
    case Build => 0
    case Leader => 1
    case MoveTroops => 2
    case NoMoneyCap => 3
    case War => 4
  }

  lemma {:induction false} StrLeRefl(a: string)
    ensures StrLe(a, a)
    decreases |a|
  {
    if a != [] {
      StrLeRefl(a[1..]);
    }
  }

  /** Comparing permission names is comparing their alphabetical ranks: the
      five names start with five different letters. */
  lemma NameOrder(p: Permission, q: Permission)
    ensures StrLe(Name(p), Name(q)) <==> Rank(p) <= Rank(q)
  {
    if p == q {
      StrLeRefl(Name(p));
    }
  }

  /** Inserts p before the first element whose name is not smaller. */
  function InsertByName(p: Permission, s: seq<Permission>): seq<Permission>
  {
    if s == [] then [p]
    else if StrLe(Name(p), Name(s[0])) then [p] + s
    else [s[0]] + InsertByName(p, s[1..])
  }

  /** `sort_by` comparing the permissions' names (an insertion sort; equal
      names are equal permissions, so stability is not observable). */
  function SortByName(s: seq<Permission>): seq<Permission>
  {
    if s == [] then [] else InsertByName(s[0], SortByName(s[1..]))
  }

  predicate SortedByName(s: seq<Permission>)
  {
    forall i, j :: 0 <= i < j < |s| ==> StrLe(Name(s[i]), Name(s[j]))
  }

  predicate SortedByRank(s: seq<Permission>)
  {
    forall i, j :: 0 <= i < j < |s| ==> Rank(s[i]) <= Rank(s[j])
  }

  lemma SortedNameRank(s: seq<Permission>)
    ensures SortedByName(s) <==> SortedByRank(s)
  {
    forall i, j | 0 <= i < j < |s| {
      NameOrder(s[i], s[j]);
    }
  }

  lemma {:induction false} InsertMembers(p: Permission, s: seq<Permission>)
    ensures multiset(InsertByName(p, s)) == multiset(s) + multiset{p}
  {
    if s != [] && !StrLe(Name(p), Name(s[0])) {
      InsertMembers(p, s[1..]);
      assert s == [s[0]] + s[1..];
    }
  }

  /** A list ordered by rank stays ordered when a value no greater than its
      head is put in front. */
  lemma ConsSorted(x: Permission, s: seq<Permission>)
    requires SortedByRank(s)
    requires forall j :: 0 <= j < |s| ==> Rank(x) <= Rank(s[j])
    ensures SortedByRank([x] + s)
  {
    var r := [x] + s;
    forall i, j | 0 <= i < j < |r|
      ensures Rank(r[i]) <= Rank(r[j])
    {
      assert r[j] == s[j - 1];
      if i > 0 {
        assert r[i] == s[i - 1];
      }
    }
  }

  lemma {:induction false} InsertKeeps(p: Permission, s: seq<Permission>)
    requires SortedByRank(s)
    ensures SortedByRank(InsertByName(p, s))
  {
    if s == [] {
    } else if StrLe(Name(p), Name(s[0])) {
      NameOrder(p, s[0]);
      forall j | 0 <= j < |s|
        ensures Rank(p) <= Rank(s[j])
      {
        if j > 0 {
          assert Rank(s[0]) <= Rank(s[j]);
        }
      }
      ConsSorted(p, s);
    } else {
      NameOrder(p, s[0]);
      var t := s[1..];
      assert SortedByRank(t) by {
        forall i, j | 0 <= i < j < |t|
          ensures Rank(t[i]) <= Rank(t[j])
        {
          assert t[i] == s[i + 1] && t[j] == s[j + 1];
        }
      }
      InsertKeeps(p, t);
      InsertMembers(p, t);
      var r := InsertByName(p, t);
      forall j | 0 <= j < |r|
        ensures Rank(s[0]) <= Rank(r[j])
      {
        assert r[j] in multiset(r);
        if r[j] != p {
          assert r[j] in multiset(t);
          var k :| 0 <= k < |t| && t[k] == r[j];
          assert s[k + 1] == r[j];
        }
      }
      ConsSorted(s[0], r);
    }
  }

  /** Sorting yields a list ordered by name holding the same permissions,
      each as often as before. */
  lemma {:induction false} SortByNameKeeps(s: seq<Permission>)
    ensures SortedByName(SortByName(s))
    ensures multiset(SortByName(s)) == multiset(s)
  {
    if s == [] {
    } else {
      SortByNameKeeps(s[1..]);
      SortedNameRank(SortByName(s[1..]));
      InsertKeeps(s[0], SortByName(s[1..]));
      InsertMembers(s[0], SortByName(s[1..]));
      SortedNameRank(SortByName(s));
      assert s == [s[0]] + s[1..];
    }
  }

  // ---- Users ----

  /** One user as `clean_users` rewrites it: permissions de-duplicated then
      sorted by name, faction upper-cased. */
  function CleanUser(u: User): User
  {
    u.(permissions := SortByName(Dedup(u.permissions)), faction := ToUpper(u.faction))
  }

  /** The `clean_users` loop: every user is kept, cleaned, in order. */
  method CleanUsers(users: seq<User>) returns (cleaned: seq<User>)
    ensures |cleaned| == |users|
    ensures forall i :: 0 <= i < |users| ==> cleaned[i] == CleanUser(users[i])
  {
    cleaned := [];
    for i := 0 to |users|
      invariant |cleaned| == i
      invariant forall k :: 0 <= k < i ==> cleaned[k] == CleanUser(users[k])
    {
      var cleanedUser := users[i];
      cleanedUser := cleanedUser.(permissions := Dedup(cleanedUser.permissions));
      cleanedUser := cleanedUser.(permissions := SortByName(cleanedUser.permissions));
      cleanedUser := cleanedUser.(faction := ToUpper(cleanedUser.faction));
      cleaned := cleaned + [cleanedUser];
    }
  }

  /** A cleaned user keeps its identity, holds its permissions sorted by
      name, and is permitted exactly what it was permitted before. */
  lemma CleanUserFacts(u: User, p: Permission)
    ensures var c := CleanUser(u);
      && c.uuid == u.uuid && c.username == u.username && c.discriminator == u.discriminator
      && c.faction == ToUpper(u.faction)
      && SortedByName(c.permissions)
      && multiset(c.permissions) == multiset(Dedup(u.permissions))
      && (Permitted(c, p) <==> Permitted(u, p))
  {
    var d := Dedup(u.permissions);
    SortByNameKeeps(d);
    DedupSameValues(u.permissions, p);
    DedupSameValues(u.permissions, Leader);
    assert p in SortByName(d) <==> p in multiset(SortByName(d));
    assert Leader in SortByName(d) <==> Leader in multiset(SortByName(d));
  }

  /** De-duplication runs before the sort, so duplicates that were not
      neighbours survive: [Build, War, Build] becomes [Build, Build, War]. */
  lemma SeparatedDuplicatesSurvive(u: User)
    requires u.permissions == [Build, War, Build]
    ensures CleanUser(u).permissions == [Build, Build, War]
  {
    var bwb := [Build, War, Build];
    assert NoAdjacentEqual(bwb);
    DedupFixed(bwb);
    NameOrder(War, Build);
    NameOrder(Build, Build);
    NameOrder(Build, War);
    assert bwb[1..] == [War, Build] && [War, Build][1..] == [Build];
    assert SortByName([Build]) == [Build];
    assert InsertByName(War, [Build]) == [Build, War];
    assert SortByName([War, Build]) == [Build, War];
    assert InsertByName(Build, [Build, War]) == [Build, Build, War];
  }

  // ---- Keep/delete partitions ----

  /** The cleaned records of xs whose keep decision is `want`, in input order. */
  function KeptBy<T>(xs: seq<T>, clean: T -> T, keep: T -> bool, want: bool): seq<T>
  {
    if xs == [] then []
    else
      var y := clean(xs[|xs| - 1]);
      KeptBy(xs[..|xs| - 1], clean, keep, want) + (if keep(y) == want then [y] else [])
  }

  /** The records as cleaned, in input order. */
  function CleanedAll<T>(xs: seq<T>, clean: T -> T): seq<T>
  {
    seq(|xs|, i requires 0 <= i < |xs| => clean(xs[i]))
  }

  /** Every record lands in exactly one of the two lists: the lists hold
      between them as many records as the input. */
  lemma {:induction false} KeptBySizes<T>(xs: seq<T>, clean: T -> T, keep: T -> bool)
    ensures |KeptBy(xs, clean, keep, true)| + |KeptBy(xs, clean, keep, false)| == |xs|
  {
    if xs != [] {
      KeptBySizes(xs[..|xs| - 1], clean, keep);
    }
  }

  /** A value is in the list for `want` exactly when it is the cleaned form of
      an input record whose decision is `want`. */
  lemma {:induction false} KeptByMember<T>(xs: seq<T>, clean: T -> T, keep: T -> bool, want: bool, y: T)
    ensures y in KeptBy(xs, clean, keep, want) <==>
      exists i :: 0 <= i < |xs| && clean(xs[i]) == y && keep(y) == want
  {
    if xs != [] {
      var init := xs[..|xs| - 1];
      KeptByMember(init, clean, keep, want, y);
      if exists i :: 0 <= i < |init| && clean(init[i]) == y && keep(y) == want {
        var i :| 0 <= i < |init| && clean(init[i]) == y && keep(y) == want;
        assert xs[i] == init[i];
      }
      if exists i :: 0 <= i < |xs| && clean(xs[i]) == y && keep(y) == want {
        var i :| 0 <= i < |xs| && clean(xs[i]) == y && keep(y) == want;
        if i < |init| {
          assert init[i] == xs[i];
        }
      }
    }
  }

  /** Each list keeps the input order: it is a subsequence of the cleaned
      input. */
  lemma {:induction false} KeptByOrder<T>(xs: seq<T>, clean: T -> T, keep: T -> bool, want: bool)
    ensures SubseqOf(KeptBy(xs, clean, keep, want), CleanedAll(xs, clean))
  {
    if xs != [] {
      var init := xs[..|xs| - 1];
      var k := KeptBy(init, clean, keep, want);
      var all := CleanedAll(xs, clean);
      KeptByOrder(init, clean, keep, want);
      var y := clean(xs[|xs| - 1]);
      assert all == CleanedAll(init, clean) + [y];
      if keep(y) == want {
        assert (k + [y])[..|k|] == k;
      } else {
        assert KeptBy(xs, clean, keep, want) == k;
        SubseqExtend(k, CleanedAll(init, clean), y);
      }
    }
  }

  /** A subsequence of b is a subsequence of b extended by one element. */
  lemma SubseqExtend<T>(a: seq<T>, b: seq<T>, x: T)
    requires SubseqOf(a, b)
    ensures SubseqOf(a, b + [x])
  {
    assert (b + [x])[..|b|] == b;
  }

  // ---- Tiles ----

  /** A tile as `clean_tiles` rewrites it: the faction upper-cased. */
  function CleanTile(t: Tile): Tile
  {
    t.(faction := ToUpper(t.faction))
  }

  /** A cleaned tile is kept when it is claimed, holds some building or
      unit, and is occupied; otherwise it is deleted. */
  predicate KeepTile(t: Tile)
  {
    t.faction != "" && !(|t.buildings| == 0 && |t.units| == 0) && t.occupied
  }

  /** The `clean_tiles` loop: cleans each tile and pushes it to the kept or
      the delete list. */
  method SortTiles(tiles: seq<Tile>) returns (cleanedTiles: seq<Tile>, toDelete: seq<Tile>)
    ensures cleanedTiles == KeptBy(tiles, CleanTile, KeepTile, true)
    ensures toDelete == KeptBy(tiles, CleanTile, KeepTile, false)
  {
    cleanedTiles := [];
    toDelete := [];
    for i := 0 to |tiles|
      invariant cleanedTiles == KeptBy(tiles[..i], CleanTile, KeepTile, true)
      invariant toDelete == KeptBy(tiles[..i], CleanTile, KeepTile, false)
    {
      var cleanedTile := tiles[i];
      cleanedTile := cleanedTile.(faction := ToUpper(cleanedTile.faction));
      var toDeleteTile := false;
      if cleanedTile.faction == "" {
        toDeleteTile := true;
      }
      if |cleanedTile.buildings| == 0 && |cleanedTile.units| == 0 {
        toDeleteTile := true;
      }
      if !cleanedTile.occupied {
        toDeleteTile := true;
      }
      if toDeleteTile {
        toDelete := toDelete + [cleanedTile];
      } else {
        cleanedTiles := cleanedTiles + [cleanedTile];
      }
      assert tiles[..i + 1][..i] == tiles[..i];
    }
    assert tiles[..|tiles|] == tiles;
  }

  /** `all` lists exactly the stored tiles (what `get_all` returns). */
  predicate Lists(all: seq<Tile>, store: Store)
  {
    (forall i :: 0 <= i < |all| ==> At(all[i]) in store && store[At(all[i])] == all[i])
    && (forall c :: c in store ==> exists i :: 0 <= i < |all| && At(all[i]) == c)
  }

  /** The tile store once cleaned: each tile upper-cased and kept, or gone. */
  function CleanedStore(store: Store): Store
  {
    map c | c in store && KeepTile(CleanTile(store[c])) :: CleanTile(store[c])
  }

  /** One cell of the store after the writes and the deletes of
      `clean_tiles`: it holds the cleaned tile exactly when that is kept. */
  lemma CleaningCell(store: Store, all: seq<Tile>, c: Coord)
    requires WellKeyed(store) && Lists(all, store)
    ensures var result := Deleting(Setting(store, KeptBy(all, CleanTile, KeepTile, true)),
                                   KeptBy(all, CleanTile, KeepTile, false));
      && (c in result <==> c in CleanedStore(store))
      && (c in result ==> result[c] == CleanedStore(store)[c])
  {
    var kept := KeptBy(all, CleanTile, KeepTile, true);
    var dropped := KeptBy(all, CleanTile, KeepTile, false);
    var written := Setting(store, kept);
    if c in store {
      var t := CleanTile(store[c]);
      var i :| 0 <= i < |all| && At(all[i]) == c;
      assert all[i] == store[c];
      if KeepTile(t) {
        KeptByMember(all, CleanTile, KeepTile, true, t);
        var k :| 0 <= k < |kept| && kept[k] == t;
        assert At(kept[k]) == c;
        forall k | 0 <= k < |kept| && At(kept[k]) == c
          ensures kept[k] == t
        {
          KeptByMember(all, CleanTile, KeepTile, true, kept[k]);
        }
        SettingHit(store, kept, c, t);
        forall k | 0 <= k < |dropped|
          ensures At(dropped[k]) != c
        {
          KeptByMember(all, CleanTile, KeepTile, false, dropped[k]);
        }
        DeletingMiss(written, dropped, c);
      } else {
        KeptByMember(all, CleanTile, KeepTile, false, t);
        var k :| 0 <= k < |dropped| && dropped[k] == t;
        assert At(dropped[k]) == c;
        DeletingHit(written, dropped, c);
      }
    } else {
      forall k | 0 <= k < |kept|
        ensures At(kept[k]) != c
      {
        KeptByMember(all, CleanTile, KeepTile, true, kept[k]);
      }
      SettingMiss(store, kept, c);
      forall k | 0 <= k < |dropped|
        ensures At(dropped[k]) != c
      {
        KeptByMember(all, CleanTile, KeepTile, false, dropped[k]);
      }
      DeletingMiss(written, dropped, c);
    }
  }

  /** Writing the kept tiles and then deleting the cells of the others turns
      the store into its cleaned form. */
  lemma CleaningStore(store: Store, all: seq<Tile>)
    requires WellKeyed(store) && Lists(all, store)
    ensures Deleting(Setting(store, KeptBy(all, CleanTile, KeepTile, true)), KeptBy(all, CleanTile, KeepTile, false))
         == CleanedStore(store)
  {
    var result := Deleting(Setting(store, KeptBy(all, CleanTile, KeepTile, true)), KeptBy(all, CleanTile, KeepTile, false));
    var want := CleanedStore(store);
    forall c
      ensures c in result <==> c in want
      ensures c in result ==> result[c] == want[c]
    {
      CleaningCell(store, all, c);
    }
    SameStore(result, want);
  }

  /** Two stores with the same cells holding the same tiles are equal. */
  lemma SameStore(a: Store, b: Store)
    requires forall c :: c in a <==> c in b
    requires forall c :: c in a ==> a[c] == b[c]
    ensures a == b
  {
  }

  /** `clean_tiles`: upper-cases every stored tile's faction, writes back the
      tiles worth keeping and deletes the rest. */
  method CleanTiles(db: Db, all: seq<Tile>)
    requires db.Valid() && Lists(all, db.tiles)
    modifies db
    ensures db.Valid()
    ensures db.tiles == CleanedStore(old(db.tiles))
    ensures db.factions == old(db.factions)
  {
    ghost var store := db.tiles;
    var cleanedTiles, toDelete := SortTiles(all);
    db.SetMany(cleanedTiles);
    ghost var written := db.tiles;
    for i := 0 to |toDelete|
      invariant db.Valid()
      invariant db.tiles == Deleting(written, toDelete[..i])
      invariant db.factions == old(db.factions)
    {
      db.DeleteTile(toDelete[i].x, toDelete[i].y);
      assert toDelete[..i + 1][..i] == toDelete[..i];
    }
    assert toDelete[..|toDelete|] == toDelete;
    CleaningStore(store, all);
  }

  /** What a cleaned store holds: exactly the stored tiles that are claimed,
      occupied and hold something, each under an upper-case faction; and
      cleaning it again changes nothing. */
  lemma CleanedStoreFacts(store: Store, c: Coord)
    ensures c in CleanedStore(store) <==>
      c in store && store[c].faction != "" && store[c].occupied
      && !(|store[c].buildings| == 0 && |store[c].units| == 0)
    ensures c in CleanedStore(store) ==> CleanedStore(store)[c].faction == ToUpper(store[c].faction)
    ensures CleanedStore(CleanedStore(store)) == CleanedStore(store)
  {
    if c in store {
      ToUpperFacts(store[c].faction);
    }
    var once := CleanedStore(store);
    forall d | d in once
      ensures CleanTile(once[d]) == once[d]
    {
      ToUpperFacts(store[d].faction);
    }
  }

  // ---- Factions ----

  /** A faction as `clean_factions` rewrites it: the tag upper-cased and
      adjacent duplicate members removed. */
  function CleanFaction(f: Faction): Faction
  {
    f.(tag := ToUpper(f.tag), members := Dedup(f.members))
  }

  /** A cleaned faction is kept when its tag, name and member list are all
      non-empty. */
  predicate KeepFaction(f: Faction)
  {
    f.tag != "" && f.name != "" && |f.members| != 0
  }

  /** The `clean_factions` loop: cleans each faction and pushes it to the
      kept or the delete list. */
  method SortFactions(factions: seq<Faction>) returns (cleanedFactions: seq<Faction>, toDelete: seq<Faction>)
    ensures cleanedFactions == KeptBy(factions, CleanFaction, KeepFaction, true)
    ensures toDelete == KeptBy(factions, CleanFaction, KeepFaction, false)
  {
    cleanedFactions := [];
    toDelete := [];
    for i := 0 to |factions|
      invariant cleanedFactions == KeptBy(factions[..i], CleanFaction, KeepFaction, true)
      invariant toDelete == KeptBy(factions[..i], CleanFaction, KeepFaction, false)
    {
      var cleanedFaction := factions[i];
      cleanedFaction := cleanedFaction.(tag := ToUpper(cleanedFaction.tag));
      cleanedFaction := cleanedFaction.(members := Dedup(cleanedFaction.members));
      var toDeleteFaction := false;
      if cleanedFaction.tag == "" {
        toDeleteFaction := true;
      }
      if cleanedFaction.name == "" {
        toDeleteFaction := true;
      }
      if |cleanedFaction.members| == 0 {
        toDeleteFaction := true;
      }
      if toDeleteFaction {
        toDelete := toDelete + [cleanedFaction];
      } else {
        cleanedFactions := cleanedFactions + [cleanedFaction];
      }
      assert factions[..i + 1][..i] == factions[..i];
    }
    assert factions[..|factions|] == factions;
  }

  /** A faction is deleted exactly when its stored tag, name or member list
      is empty (upper-casing and de-duplication empty nothing else); a kept
      faction's members have no equal neighbours and appear in stored order. */
  lemma FactionDeletedIff(f: Faction)
    ensures !KeepFaction(CleanFaction(f)) <==> f.tag == "" || f.name == "" || f.members == []
    ensures KeepFaction(CleanFaction(f)) ==>
      NoAdjacentEqual(CleanFaction(f).members) && SubseqOf(CleanFaction(f).members, f.members)
  {
    ToUpperFacts(f.tag);
    DedupEmpty(f.members);
    DedupNoAdjacent(f.members);
    DedupSubseq(f.members);
  }
}
