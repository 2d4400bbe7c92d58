/**
 * The situations of the RSpec examples for `create_records`, replayed
 * against the model: each method builds a table, runs the service on it
 * and returns the message and what the table holds afterwards.
 */
module Scenarios {
  import opened Wrappers
  import opened Numerals
  import opened OpponentParser
  import opened Records
  import opened Service

  /** An empty list of games: the message reports 0 and the table sees no request. */
  method EmptyInput() returns (r: Result<string, StoreError>, after: map<Key, Item>)
    ensures r == Success("steph-curry: upserted 0 record(s)")
    ensures after == map[]
  {
    var table := new Table(map[], {}, false);
    var service := new DatabaseService("steph-curry", table);
    r := service.CreateRecords([]);
    MessageNone();
    assert table.calls == [];
    after := table.items;
  }

  /** The only game is already stored: one query, no put, a count of 0. */
  method AlreadyStored() returns (r: Result<string, StoreError>, after: map<Key, Item>)
    ensures r == Success("steph-curry: upserted 0 record(s)")
    ensures after == map[Key("steph-curry", "2022-11-03") := Item("BOS", true, 17, 8)]
  {
    var key := Key("steph-curry", "2022-11-03");
    var stored := Item("BOS", true, 17, 8);
    var table := new Table(map[key := stored], {}, false);
    var service := new DatabaseService("steph-curry", table);
    var game := Game("2022-11-03", "BOS", "17", "8");
    assert Dates(table.items, "steph-curry") == {"2022-11-03"};
    r := service.CreateRecords([game]);
    assert Candidates([game], {"2022-11-03"}) == [];
    MessageNone();
    assert table.calls == [QueryCall("steph-curry")];
    after := table.items;
  }

  /**
   * One game is stored and one is new: only the new one is put, with the
   * item the example expects, and the count is 1.
   */
  method OneStoredOneNew() returns (r: Result<string, StoreError>, after: map<Key, Item>)
    ensures r == Success("steph-curry: upserted 1 record(s)")
    ensures after == map[Key("steph-curry", "2022-11-03") := Item("BOS", true, 17, 8),
                         Key("steph-curry", "2022-11-05") := Item("NY", false, 14, 10)]
  {
    var storedKey := Key("steph-curry", "2022-11-03");
    var newKey := Key("steph-curry", "2022-11-05");
    var storedItem := Item("BOS", true, 17, 8);
    var newItem := Item("NY", false, 14, 10);
    var table := new Table(map[storedKey := storedItem], {}, false);
    var service := new DatabaseService("steph-curry", table);
    var stored := Game("2022-11-03", "BOS", "17", "8");
    var added := Game("2022-11-05", "@NY", "14", "10");
    NewYorkItem(added);
    OnlyAddedIsPut("steph-curry", table.items, stored, added, newItem);
    r := service.CreateRecords([stored, added]);
    MessageOne();
    after := table.items;
  }

  /**
   * Of a stored game and a new one whose item parses, only the new one is
   * put, and a store that rejects nothing keeps it.
   */
  lemma OnlyAddedIsPut(player: string, items: map<Key, Item>, stored: Game, added: Game, item: Item)
    requires Key(player, stored.date) in items && Key(player, added.date) !in items
    requires BuildItem(added) == Some(item)
    ensures var ps := Upserts(player, [stored, added], Dates(items, player));
            var p := Put(Key(player, added.date), item);
            && ps == [p]
            && PutCalls(ps) == [PutCall(p)]
            && Accepted(ps, {}) == [p]
            && Store(items, [p]) == items[p.key := p.item]
  {
    StoredThenNew(player, stored, added, Dates(items, player), item);
    SinglePut(Put(Key(player, added.date), item), {}, items);
  }

  /** Neither game is stored: both are put, in order, and the count is 2. */
  method NothingStored() returns (r: Result<string, StoreError>, after: map<Key, Item>)
    ensures r == Success("steph-curry: upserted 2 record(s)")
    ensures after == map[Key("steph-curry", "2022-11-03") := Item("BOS", true, 17, 8),
                         Key("steph-curry", "2022-11-05") := Item("NY", false, 14, 10)]
  {
    var table := new Table(map[], {}, false);
    var service := new DatabaseService("steph-curry", table);
    var home := Game("2022-11-03", "vs BOS", "17", "8");
    var away := Game("2022-11-05", "@NY", "14", "10");
    BostonItem(home);
    NewYorkItem(away);
    var p := Put(Key("steph-curry", "2022-11-03"), Item("BOS", true, 17, 8));
    var q := Put(Key("steph-curry", "2022-11-05"), Item("NY", false, 14, 10));
    assert Dates(table.items, "steph-curry") == {};
    CandidatesOfNothingStored([home, away]);
    RequestsOfTwo("steph-curry", home, away);
    assert Upserts("steph-curry", [home, away], {}) == [p] + [q];
    AcceptedAll([p] + [q], {});
    StoreAppend(map[], [p], [q]);
    SinglePut(p, {}, map[]);
    SinglePut(q, {}, map[p.key := p.item]);
    r := service.CreateRecords([home, away]);
    MessageTwo();
    after := table.items;
  }

  /** The home game of the examples builds the item they expect. */
  lemma BostonItem(game: Game)
    requires game == Game("2022-11-03", "vs BOS", "17", "8")
    ensures BuildItem(game) == Some(Item("BOS", true, 17, 8))
  {
    ParseHomeBos(game.opponent);
    ToIExamples();
  }

  /** The away game of the examples builds the item they expect. */
  lemma NewYorkItem(game: Game)
    requires game == Game("2022-11-05", "@NY", "14", "10")
    ensures BuildItem(game) == Some(Item("NY", false, 14, 10))
  {
    ParseAwayTwoLetters(game.opponent);
    ToIExamples();
  }

  /**
   * Two calls on one service query the table once. The second call filters
   * with the dates fetched by the first, which do not include what the
   * first call wrote, so the same puts are sent again.
   */
  method QueriedOnce(table: Table, player: string, games: seq<Game>)
    returns (r1: Result<string, StoreError>, r2: Result<string, StoreError>)
    requires games != [] && !table.queryFails
    modifies table
    ensures r1 == r2
    ensures var ps := Upserts(player, games, Dates(old(table.items), player));
            table.calls == old(table.calls) + [QueryCall(player)] + PutCalls(ps) + PutCalls(ps)
  {
    var service := new DatabaseService(player, table);
    ghost var existing := Dates(table.items, player);
    ghost var ps := Upserts(player, games, existing);
    ghost var before := table.calls;
    r1 := service.CreateRecords(games);
    ghost var between := table.calls;
    assert between == before + [QueryCall(player)] + PutCalls(ps);
    assert service.existingRecords == Some(existing);
    r2 := service.CreateRecords(games);
    assert table.calls == between + [] + PutCalls(ps);
    assert between + [] == between;
  }

  /** A one-digit count is rendered as that digit. */
  lemma MessageOfDigit(player: string, n: nat)
    requires n < 10
    ensures OutputMsg(player, n) == player + ": upserted " + [DigitChar(n)] + " record(s)"
  {
    assert NatToString(n) == [DigitChar(n)];
  }

  /** The message of the examples for a count of 0. */
  lemma MessageNone()
    ensures OutputMsg("steph-curry", 0) == "steph-curry: upserted 0 record(s)"
  {
    MessageOfDigit("steph-curry", 0);
  }

  /** The message of the examples for a count of 1. */
  lemma MessageOne()
    ensures OutputMsg("steph-curry", 1) == "steph-curry: upserted 1 record(s)"
  {
    MessageOfDigit("steph-curry", 1);
  }

  /** The message of the examples for a count of 2. */
  lemma MessageTwo()
    ensures OutputMsg("steph-curry", 2) == "steph-curry: upserted 2 record(s)"
  {
    MessageOfDigit("steph-curry", 2);
  }
}
