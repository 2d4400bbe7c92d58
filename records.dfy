/**
 * The values that flow through `DatabaseService#create_records`: the games
 * a scraper hands in, the items stored in the "splash-brothers-stats" table
 * under the key (player_name, game_date), and the pure functions that say
 * which games are written, what is written, what the table holds after the
 * writes and what message comes back.
 */
module Records {
  import opened Wrappers
  import opened Numerals
  import opened OpponentParser

  /** A game as the scraper delivers it: every field is text. */
  datatype Game = Game(date: string, opponent: string, fg3a: string, fg3m: string)

  /** The table's composite key: partition key player_name, sort key game_date. */
  datatype Key = Key(playerName: string, gameDate: string)

  /** The attributes stored beside the key. */
  datatype Item = Item(opponent: string, atHome: bool, fg3a: int, fg3m: int)

  /** One `put_item` request. */
  datatype Put = Put(key: Key, item: Item)

  // ---------------------------------------------------------------------
  // Dedupe

  /**
   * The `select` of `create_records`: the games, in order, whose date is
   * not among the dates already stored.
   */
  function Candidates(games: seq<Game>, existing: set<string>): (r: seq<Game>)
    ensures |r| <= |games|
  {
    if games == [] then []
    else if games[0].date in existing then Candidates(games[1..], existing)
    else [games[0]] + Candidates(games[1..], existing)
  }

  /** A game is a candidate exactly when it is given and its date is not stored. */
  lemma {:induction false} CandidatesFilter(games: seq<Game>, existing: set<string>)
    ensures forall g :: g in Candidates(games, existing) <==> g in games && g.date !in existing
    decreases |games|
  {
    if games != [] {
      CandidatesFilter(games[1..], existing);
      assert forall g :: g in games <==> g == games[0] || g in games[1..];
    }
  }

  /** Filtering keeps input order: it distributes over concatenation. */
  lemma {:induction false} CandidatesAppend(a: seq<Game>, b: seq<Game>, existing: set<string>)
    ensures Candidates(a + b, existing) == Candidates(a, existing) + Candidates(b, existing)
    decreases |a|
  {
    if a == [] {
      assert a + b == b;
    } else {
      assert (a + b)[1..] == a[1..] + b;
      CandidatesAppend(a[1..], b, existing);
    }
  }

  /** Without stored dates every game is a candidate, duplicates included. */
  lemma {:induction false} CandidatesOfNothingStored(games: seq<Game>)
    ensures Candidates(games, {}) == games
    decreases |games|
  {
    if games != [] {
      CandidatesOfNothingStored(games[1..]);
    }
  }

  // ---------------------------------------------------------------------
  // One record

  /**
   * The item `create_record` builds for a game, or `None` where
   * `parse_opponent` raises before anything is written.
   */
  function BuildItem(game: Game): (r: Option<Item>)
    ensures r.Some? <==> ParseOpponent(game.opponent).Some?
    ensures r.Some? ==> 2 <= |r.value.opponent| <= 3
  {
    match ParseOpponent(game.opponent)
    case None => None
    case Some(o) => Some(Item(o.code, o.atHome, ToI(game.fg3a), ToI(game.fg3m)))
  }

  /** The requests a game gives rise to: one put, or none when parsing fails. */
  function RequestsFor(player: string, game: Game): (r: seq<Put>)
    ensures |r| <= 1 && (r != [] <==> BuildItem(game).Some?)
  {
    match BuildItem(game)
    case None => []
    case Some(item) => [Put(Key(player, game.date), item)]
  }

  /** The `put_item` requests issued for `games`, in order. */
  function Requests(player: string, games: seq<Game>): (r: seq<Put>)
    ensures |r| <= |games|
  {
    if games == [] then []
    else Requests(player, games[..|games| - 1]) + RequestsFor(player, games[|games| - 1])
  }

  lemma {:induction false} RequestsAppend(player: string, a: seq<Game>, b: seq<Game>)
    ensures Requests(player, a + b) == Requests(player, a) + Requests(player, b)
    decreases |b|
  {
    if b == [] {
      assert a + b == a;
    } else {
      var n := |b| - 1;
      assert (a + b)[..|a + b| - 1] == a + b[..n];
      assert (a + b)[|a + b| - 1] == b[n];
      RequestsAppend(player, a, b[..n]);
      var x, y, z := Requests(player, a), Requests(player, b[..n]), RequestsFor(player, b[n]);
      assert Requests(player, a + b) == x + y + z;
      assert Requests(player, b) == y + z;
      ConcatAssociative(x, y, z);
    }
  }

  lemma ConcatAssociative<T>(x: seq<T>, y: seq<T>, z: seq<T>)
    ensures x + y + z == x + (y + z)
  {
  }

  /** The requests for one more game are those for the games before it, then its own. */
  lemma RequestsStep(player: string, games: seq<Game>, i: nat)
    requires i < |games|
    ensures Requests(player, games[..i + 1]) == Requests(player, games[..i]) + RequestsFor(player, games[i])
  {
    assert games[..i + 1][..i] == games[..i];
  }

  /**
   * Every request stores the item built from one of the games, under that
   * game's date.
   */
  lemma {:induction false} RequestsComeFromGames(player: string, games: seq<Game>, p: Put)
    requires p in Requests(player, games)
    ensures exists g :: g in games && p.key == Key(player, g.date) && BuildItem(g) == Some(p.item)
    decreases |games|
  {
    var n := |games| - 1;
    assert Requests(player, games) == Requests(player, games[..n]) + RequestsFor(player, games[n]);
    if p in Requests(player, games[..n]) {
      RequestsComeFromGames(player, games[..n], p);
      var g :| g in games[..n] && p.key == Key(player, g.date) && BuildItem(g) == Some(p.item);
      assert g in games;
    } else {
      InRequestsFor(player, games[n], p);
      assert games[n] in games;
    }
  }

  lemma InRequestsFor(player: string, game: Game, p: Put)
    requires p in RequestsFor(player, game)
    ensures p.key == Key(player, game.date) && BuildItem(game) == Some(p.item)
  {
  }

  /** Every game's opponent parses. */
  predicate AllParse(games: seq<Game>) {
    forall k :: 0 <= k < |games| ==> BuildItem(games[k]).Some?
  }

  /** Exactly one request per game exactly when every opponent parses. */
  lemma {:induction false} RequestsForEveryGame(player: string, games: seq<Game>)
    ensures |Requests(player, games)| == |games| <==> AllParse(games)
    decreases |games|
  {
    if games != [] {
      var n := |games| - 1;
      RequestsForEveryGame(player, games[..n]);
      AllParseStep(games);
      assert |Requests(player, games)|
             == |Requests(player, games[..n])| + |RequestsFor(player, games[n])|;
    }
  }

  /** All games parse when those before the last do and the last does. */
  lemma AllParseStep(games: seq<Game>)
    requires games != []
    ensures var n := |games| - 1;
            AllParse(games) <==> AllParse(games[..n]) && BuildItem(games[n]).Some?
  {
    var n := |games| - 1;
    if AllParse(games[..n]) && BuildItem(games[n]).Some? {
      forall k | 0 <= k < |games| ensures BuildItem(games[k]).Some? {
        if k < n {
          assert games[k] == games[..n][k];
        }
      }
    }
  }

  // ---------------------------------------------------------------------
  // Writing

  /** The requests the store accepts, in order: those to keys it does not reject. */
  function Accepted(ps: seq<Put>, failing: set<Key>): (r: seq<Put>)
    ensures |r| <= |ps|
  {
    if ps == [] then []
    else
      var init := Accepted(ps[..|ps| - 1], failing);
      var last := ps[|ps| - 1];
      if last.key in failing then init else init + [last]
  }

  /** A put is accepted exactly when it is sent and its key is not rejected. */
  lemma {:induction false} AcceptedFilter(ps: seq<Put>, failing: set<Key>)
    ensures forall p :: p in Accepted(ps, failing) <==> p in ps && p.key !in failing
    decreases |ps|
  {
    if ps != [] {
      var n := |ps| - 1;
      AcceptedFilter(ps[..n], failing);
      assert forall p :: p in ps <==> p in ps[..n] || p == ps[n];
    }
  }

  /** Filtering by the store keeps request order: it distributes over concatenation. */
  lemma {:induction false} AcceptedAppend(ps: seq<Put>, qs: seq<Put>, failing: set<Key>)
    ensures Accepted(ps + qs, failing) == Accepted(ps, failing) + Accepted(qs, failing)
    decreases |qs|
  {
    if qs == [] {
      assert ps + qs == ps;
    } else {
      var n := |qs| - 1;
      assert (ps + qs)[..|ps + qs| - 1] == ps + qs[..n];
      assert (ps + qs)[|ps + qs| - 1] == qs[n];
      AcceptedAppend(ps, qs[..n], failing);
    }
  }

  /** The table after the accepted puts, each overwriting its key. */
  function Store(items: map<Key, Item>, ps: seq<Put>): map<Key, Item> {
    if ps == [] then items
    else
      var last := ps[|ps| - 1];
      Store(items, ps[..|ps| - 1])[last.key := last.item]
  }

  /** The table holds the keys it held before and the keys of the puts: nothing is deleted. */
  lemma {:induction false} StoreKeys(items: map<Key, Item>, ps: seq<Put>)
    ensures Store(items, ps).Keys == items.Keys + set p | p in ps :: p.key
    decreases |ps|
  {
    if ps != [] {
      var n := |ps| - 1;
      StoreKeys(items, ps[..n]);
      assert forall p :: p in ps <==> p in ps[..n] || p == ps[n];
    }
  }

  /** Applying two runs of puts is applying their concatenation. */
  lemma {:induction false} StoreAppend(items: map<Key, Item>, ps: seq<Put>, qs: seq<Put>)
    ensures Store(items, ps + qs) == Store(Store(items, ps), qs)
    decreases |qs|
  {
    if qs == [] {
      assert ps + qs == ps;
    } else {
      var n := |qs| - 1;
      assert (ps + qs)[..|ps + qs| - 1] == ps + qs[..n];
      assert (ps + qs)[|ps + qs| - 1] == qs[n];
      StoreAppend(items, ps, qs[..n]);
    }
  }

  /** Keys no put touches keep their value. */
  lemma {:induction false} StoreFrame(items: map<Key, Item>, ps: seq<Put>, key: Key)
    requires forall p :: p in ps ==> p.key != key
    requires key in items
    ensures key in Store(items, ps) && Store(items, ps)[key] == items[key]
    decreases |ps|
  {
    if ps != [] {
      StoreFrame(items, ps[..|ps| - 1], key);
    }
  }

  /** A key holds the item of the last put to it: upserts overwrite. */
  lemma {:induction false} StoreLastWriteWins(items: map<Key, Item>, ps: seq<Put>, i: nat)
    requires i < |ps|
    requires forall j :: i < j < |ps| ==> ps[j].key != ps[i].key
    ensures ps[i].key in Store(items, ps) && Store(items, ps)[ps[i].key] == ps[i].item
    decreases |ps|
  {
    var n := |ps| - 1;
    assert Store(items, ps) == Store(items, ps[..n])[ps[n].key := ps[n].item];
    if i < n {
      assert ps[..n][i] == ps[i];
      assert forall j :: i < j < n ==> ps[..n][j] == ps[j];
      StoreLastWriteWins(items, ps[..n], i);
      assert ps[n].key != ps[i].key;
    }
  }

  // ---------------------------------------------------------------------
  // The whole pipeline

  /** The puts `create_records` issues, given the dates already stored. */
  function Upserts(player: string, games: seq<Game>, existing: set<string>): (r: seq<Put>)
    ensures |r| <= |Candidates(games, existing)| <= |games|
  {
    Requests(player, Candidates(games, existing))
  }

  /** No game whose date is already stored is written. */
  lemma NoStoredDateWritten(player: string, games: seq<Game>, existing: set<string>, p: Put)
    requires p in Upserts(player, games, existing)
    ensures p.key.playerName == player && p.key.gameDate !in existing
  {
    var cs := Candidates(games, existing);
    RequestsComeFromGames(player, cs, p);
    var g :| g in cs && p.key == Key(player, g.date) && BuildItem(g) == Some(p.item);
    CandidatesFilter(games, existing);
  }

  /**
   * The count `create_records` reports is the number of accepted puts: at
   * most the number of candidates, which is at most the number of games.
   */
  lemma CountBounds(player: string, games: seq<Game>, existing: set<string>, failing: set<Key>)
    ensures |Accepted(Upserts(player, games, existing), failing)|
            <= |Upserts(player, games, existing)|
            <= |Candidates(games, existing)|
            <= |games|
  {
  }

  /**
   * The RSpec example with one stored and one new game: the first game's date is
   * stored, the second's is not, so only the second game is put.
   */
  lemma StoredThenNew(player: string, stored: Game, added: Game, existing: set<string>, item: Item)
    requires stored.date in existing && added.date !in existing
    requires BuildItem(added) == Some(item)
    ensures Upserts(player, [stored, added], existing) == [Put(Key(player, added.date), item)]
  {
    assert [stored, added][1..] == [added] && [added][1..] == [];
    assert Candidates([added], existing) == [added];
    assert Candidates([stored, added], existing) == [added];
    assert [added][..0] == [];
    assert Requests(player, [added]) == Requests(player, []) + RequestsFor(player, added);
  }

  /**
   * A put the store rejects does not stop the next one: of two parsed
   * games whose first key is rejected, exactly the second is written.
   */
  lemma FailedWriteIsolated(player: string, first: Game, second: Game, failing: set<Key>, a: Item, b: Item)
    requires BuildItem(first) == Some(a) && BuildItem(second) == Some(b)
    requires Key(player, first.date) in failing && Key(player, second.date) !in failing
    ensures Accepted(Requests(player, [first, second]), failing) == [Put(Key(player, second.date), b)]
  {
    var p := Put(Key(player, first.date), a);
    var q := Put(Key(player, second.date), b);
    RequestsOfTwo(player, first, second);
    assert RequestsFor(player, first) == [p] && RequestsFor(player, second) == [q];
    AcceptedOfTwo(p, q, failing);
  }

  lemma AcceptedOfTwo(p: Put, q: Put, failing: set<Key>)
    requires p.key in failing && q.key !in failing
    ensures Accepted([p] + [q], failing) == [q]
  {
    assert ([p] + [q])[..1] == [p] && [p][..0] == [];
  }

  lemma RequestsOfTwo(player: string, first: Game, second: Game)
    ensures Requests(player, [first, second]) == RequestsFor(player, first) + RequestsFor(player, second)
  {
    assert [first, second][..1] == [first] && [first][..0] == [];
    assert Requests(player, [first]) == RequestsFor(player, first);
  }

  /**
   * Every candidate is counted exactly when every candidate's opponent
   * parses and the store accepts every put.
   */
  lemma {:induction false} CountIsFull(ps: seq<Put>, failing: set<Key>)
    ensures |Accepted(ps, failing)| == |ps| <==> forall p :: p in ps ==> p.key !in failing
    decreases |ps|
  {
    if ps != [] {
      var n := |ps| - 1;
      CountIsFull(ps[..n], failing);
      assert forall p :: p in ps ==> p in ps[..n] || p == ps[n];
      assert ps[n] in ps;
      assert forall p :: p in ps[..n] ==> p in ps;
    }
  }

  /** When the store rejects none of the keys, every put is accepted, in order. */
  lemma {:induction false} AcceptedAll(ps: seq<Put>, failing: set<Key>)
    requires forall p :: p in ps ==> p.key !in failing
    ensures Accepted(ps, failing) == ps
    decreases |ps|
  {
    if ps != [] {
      var n := |ps| - 1;
      assert forall p :: p in ps[..n] ==> p in ps;
      AcceptedAll(ps[..n], failing);
      assert ps[n] in ps;
      assert ps[..n] + [ps[n]] == ps;
    }
  }

  // ---------------------------------------------------------------------
  // The message

  /** `output_msg`: "<player>: upserted <n> record(s)". */
  function OutputMsg(player: string, count: nat): (msg: string)
    ensures |msg| == |player| + 11 + |NatToString(count)| + 10
    ensures msg[..|player|] == player
  {
    player + ": upserted " + NatToString(count) + " record(s)"
  }

  /** The count can be read back from the message: reading it is `to_i` after the prefix. */
  lemma OutputMsgCount(player: string, count: nat)
    ensures ToI(OutputMsg(player, count)[|player| + 11..]) == count
  {
    var digits := NatToString(count);
    assert OutputMsg(player, count)[|player| + 11..] == digits + " record(s)";
    ToIOfNatToString(count, " record(s)");
  }

  /** Different counts give different messages. */
  lemma OutputMsgInjective(player: string, m: nat, n: nat)
    requires OutputMsg(player, m) == OutputMsg(player, n)
    ensures m == n
  {
    OutputMsgCount(player, m);
    OutputMsgCount(player, n);
  }
}
