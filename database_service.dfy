/**
 * `DatabaseService` and the key-value table it writes to. The table is an
 * object holding its items; which puts it rejects and whether its query
 * fails are fixed when it is built, and every call made on it is logged so
 * that contracts can say which requests the service sends and in what order.
 */
module Service {
  import opened Wrappers
  import opened Numerals
  import opened OpponentParser
  import opened Records

  /** The error a failed query raises; `create_records` does not rescue it. */
  datatype StoreError = QueryFailed

  /** A request the service sends to the table. */
  datatype Call = QueryCall(playerName: string) | PutCall(put: Put)

  /** The calls that send the given puts, in order. */
  function PutCalls(ps: seq<Put>): seq<Call> {
    if ps == [] then [] else PutCalls(ps[..|ps| - 1]) + [PutCall(ps[|ps| - 1])]
  }

  lemma {:induction false} PutCallsAppend(ps: seq<Put>, qs: seq<Put>)
    ensures PutCalls(ps + qs) == PutCalls(ps) + PutCalls(qs)
    decreases |qs|
  {
    if qs == [] {
      assert ps + qs == ps;
    } else {
      var n := |qs| - 1;
      assert (ps + qs)[..|ps + qs| - 1] == ps + qs[..n];
      assert (ps + qs)[|ps + qs| - 1] == qs[n];
      PutCallsAppend(ps, qs[..n]);
    }
  }

  /**
   * What one more candidate adds to the requests, the calls, the accepted
   * puts and the table: exactly what its own request adds.
   */
  lemma UpsertStep(player: string, cs: seq<Game>, i: nat, failing: set<Key>, items: map<Key, Item>,
                   sent: seq<Call>)
    requires i < |cs|
    ensures var done := Requests(player, cs[..i]);
            var next := RequestsFor(player, cs[i]);
            var upto := Requests(player, cs[..i + 1]);
            && upto == done + next
            && sent + PutCalls(upto) == sent + PutCalls(done) + PutCalls(next)
            && Accepted(upto, failing) == Accepted(done, failing) + Accepted(next, failing)
            && Store(items, Accepted(upto, failing))
               == Store(Store(items, Accepted(done, failing)), Accepted(next, failing))
  {
    var done := Requests(player, cs[..i]);
    var next := RequestsFor(player, cs[i]);
    RequestsStep(player, cs, i);
    PutCallsAppend(done, next);
    ConcatAssociative(sent, PutCalls(done), PutCalls(next));
    AcceptedAppend(done, next, failing);
    StoreAppend(items, Accepted(done, failing), Accepted(next, failing));
  }

  /** A single put: the call that sends it, whether it is accepted, what it stores. */
  lemma SinglePut(p: Put, failing: set<Key>, items: map<Key, Item>)
    ensures PutCalls([p]) == [PutCall(p)]
    ensures Accepted([p], failing) == if p.key in failing then [] else [p]
    ensures Store(items, [p]) == items[p.key := p.item]
  {
    assert [p][..0] == [];
  }

  /** Without candidates no request is sent and the table is left alone. */
  lemma NothingToPut(items: map<Key, Item>, failing: set<Key>)
    ensures PutCalls([]) == [] && Accepted([], failing) == [] && Store(items, []) == items
  {
  }

  /**
   * What the query for a player's stored dates answers: the sort key of
   * every item under the player's partition key.
   */
  function Dates(items: map<Key, Item>, player: string): (r: set<string>)
    ensures forall d :: d in r <==> Key(player, d) in items
  {
    set k | k in items && k.playerName == player :: k.gameDate
  }

  /** The "splash-brothers-stats" table. */
  class Table {
    var items: map<Key, Item>
    /** The keys whose `put_item` raises. */
    const failing: set<Key>
    /** Whether the query for stored dates raises. */
    const queryFails: bool
    /** Every request made on the table, oldest first. */
    ghost var calls: seq<Call>

    constructor (items: map<Key, Item>, failing: set<Key>, queryFails: bool)
      ensures this.items == items && this.failing == failing && this.queryFails == queryFails
      ensures calls == []
    {
      this.items := items;
      this.failing := failing;
      this.queryFails := queryFails;
      calls := [];
    }

    /** The query on the player's partition, projected to `game_date`. */
    method Query(player: string) returns (r: Result<set<string>, StoreError>)
      modifies this`calls
      ensures calls == old(calls) + [QueryCall(player)]
      ensures r == if queryFails then Failure(QueryFailed) else Success(Dates(items, player))
    {
      calls := calls + [QueryCall(player)];
      if queryFails {
        r := Failure(QueryFailed);
      } else {
        r := Success(Dates(items, player));
      }
    }

    /** `put_item`: create or overwrite the item under `p.key`, unless the table rejects it. */
    method PutItem(p: Put) returns (ok: bool)
      modifies this`items, this`calls
      ensures calls == old(calls) + [PutCall(p)]
      ensures ok <==> p.key !in failing
      ensures items == if ok then old(items)[p.key := p.item] else old(items)
    {
      calls := calls + [PutCall(p)];
      ok := p.key !in failing;
      if ok {
        items := items[p.key := p.item];
      }
    }
  }

  class DatabaseService {
    const playerName: string
    const table: Table
    /** `@existing_records`: the stored dates, once they have been fetched. */
    var existingRecords: Option<set<string>>

    constructor (playerName: string, table: Table)
      ensures this.playerName == playerName && this.table == table
      ensures existingRecords == None
    {
      this.playerName := playerName;
      this.table := table;
      existingRecords := None;
    }

    /**
     * `existing_records`: the first successful call queries the table and
     * keeps the answer; every later call returns it without a query. A
     * failed query keeps nothing, so the next call queries again.
     */
    method ExistingRecords() returns (r: Result<set<string>, StoreError>)
      modifies this`existingRecords, table`calls
      ensures old(existingRecords).Some? ==>
        && r == Success(old(existingRecords).value)
        && existingRecords == old(existingRecords)
        && table.calls == old(table.calls)
      ensures old(existingRecords).None? ==> table.calls == old(table.calls) + [QueryCall(playerName)]
      ensures old(existingRecords).None? && table.queryFails ==>
        r == Failure(QueryFailed) && existingRecords == None
      ensures old(existingRecords).None? && !table.queryFails ==>
        r == Success(Dates(table.items, playerName)) && existingRecords == Some(r.value)
    {
      if existingRecords.Some? {
        return Success(existingRecords.value);
      }
      r := table.Query(playerName);
      if r.Success? {
        existingRecords := Some(r.value);
      }
    }

    /**
     * `create_record`: build the item and put it; 1 when the put succeeds,
     * 0 when it raises or when the opponent does not parse, in which case
     * nothing is sent to the table.
     */
    method CreateRecord(game: Game) returns (n: nat)
      modifies table`items, table`calls
      ensures BuildItem(game).None? ==>
        n == 0 && table.items == old(table.items) && table.calls == old(table.calls)
      ensures BuildItem(game).Some? ==>
        var p := Put(Key(playerName, game.date), BuildItem(game).value);
        && table.calls == old(table.calls) + [PutCall(p)]
        && (n == 1 <==> p.key !in table.failing) && n <= 1
        && table.items == (if n == 1 then old(table.items)[p.key := p.item] else old(table.items))
    {
      var parsed := ParseOpponent(game.opponent);
      if parsed.None? {
        return 0;
      }
      var item := Item(parsed.value.code, parsed.value.atHome, ToI(game.fg3a), ToI(game.fg3m));
      var ok := table.PutItem(Put(Key(playerName, game.date), item));
      n := if ok then 1 else 0;
    }

    /**
     * The loop of `create_records`: `create_record` on each candidate in
     * turn, adding up the records created.
     */
    method CreateEach(candidates: seq<Game>) returns (recordsCreated: nat)
      modifies table`items, table`calls
      ensures var ps := Requests(playerName, candidates);
              var accepted := Accepted(ps, table.failing);
              && table.calls == old(table.calls) + PutCalls(ps)
              && table.items == Store(old(table.items), accepted)
              && recordsCreated == |accepted|
    {
      ghost var items0 := table.items;
      ghost var calls0 := table.calls;
      recordsCreated := 0;
      assert candidates[..0] == [];
      assert Requests(playerName, candidates[..0]) == [];
      assert calls0 + PutCalls([]) == calls0;
      for i := 0 to |candidates|
        invariant table.calls == calls0 + PutCalls(Requests(playerName, candidates[..i]))
        invariant table.items == Store(items0, Accepted(Requests(playerName, candidates[..i]), table.failing))
        invariant recordsCreated == |Accepted(Requests(playerName, candidates[..i]), table.failing)|
      {
        UpsertStep(playerName, candidates, i, table.failing, items0, calls0);
        var n := CreateRecord(candidates[i]);
        if BuildItem(candidates[i]).Some? {
          SinglePut(Put(Key(playerName, candidates[i].date), BuildItem(candidates[i]).value),
                    table.failing, Store(items0, Accepted(Requests(playerName, candidates[..i]), table.failing)));
        }
        recordsCreated := recordsCreated + n;
      }
      assert candidates[..|candidates|] == candidates;
    }

    /**
     * `create_records`: drop the games whose date is already stored, put
     * each remaining one, and report how many puts succeeded. An empty
     * input touches nothing; a failing query is the one error that escapes.
     */
    method CreateRecords(games: seq<Game>) returns (r: Result<string, StoreError>)
      modifies this`existingRecords, table`items, table`calls
      ensures games == [] ==>
        && r == Success(OutputMsg(playerName, 0))
        && existingRecords == old(existingRecords)
        && table.items == old(table.items) && table.calls == old(table.calls)
      ensures games != [] && old(existingRecords).None? && table.queryFails ==>
        && r == Failure(QueryFailed)
        && existingRecords == None
        && table.items == old(table.items)
        && table.calls == old(table.calls) + [QueryCall(playerName)]
      ensures games != [] && (old(existingRecords).Some? || !table.queryFails) ==>
        var existing := if old(existingRecords).Some? then old(existingRecords).value
                        else Dates(old(table.items), playerName);
        var ps := Upserts(playerName, games, existing);
        var accepted := Accepted(ps, table.failing);
        && existingRecords == Some(existing)
        && table.calls == old(table.calls)
                          + (if old(existingRecords).None? then [QueryCall(playerName)] else [])
                          + PutCalls(ps)
        && table.items == Store(old(table.items), accepted)
        && r == Success(OutputMsg(playerName, |accepted|))
    {
      if games == [] {
        return Success(OutputMsg(playerName, 0));
      }
      ghost var memo := existingRecords;
      ghost var calls0 := table.calls;
      var fetched := ExistingRecords();
      if fetched.Failure? {
        return Failure(fetched.error);
      }
      var existing := fetched.value;
      ghost var queried := if memo.None? then [QueryCall(playerName)] else [];
      assert table.calls == calls0 + queried;
      assert existing == if memo.Some? then memo.value else Dates(table.items, playerName);
      var candidates := Candidates(games, existing);
      if candidates == [] {
        NothingToPut(table.items, table.failing);
        assert table.calls == calls0 + queried + PutCalls([]);
        return Success(OutputMsg(playerName, 0));
      }
      var recordsCreated := CreateEach(candidates);
      return Success(OutputMsg(playerName, recordsCreated));
    }
  }
}
