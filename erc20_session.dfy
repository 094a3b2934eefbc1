/** A server answering a series of AddERC20 requests, one after another,
    against one store. The server itself keeps nothing between calls; the
    store's rows do carry over, each request being served against the rows
    the earlier ones left. The guarantees of one call then carry over to
    the whole series. */
module Erc20Session {
  import opened Erc20Types
  import opened Erc20Service

  /** The outcomes of a series of requests, every collaborator call made,
      and the store's rows at the end. */
  datatype Session = Session(outcomes: seq<Outcome>, calls: seq<Call>, rows: seq<Token>)

  lemma {:induction false} QueriesAppend(a: seq<Call>, b: seq<Call>)
    ensures Queries(a + b) == Queries(a) + Queries(b)
  {
    if a != [] {
      assert (a + b)[1..] == a[1..] + b;
      QueriesAppend(a[1..], b);
    } else {
      assert a + b == b;
    }
  }

  lemma {:induction false} InsertsAppend(a: seq<Call>, b: seq<Call>)
    ensures Inserts(a + b) == Inserts(a) + Inserts(b)
  {
    if a != [] {
      assert (a + b)[1..] == a[1..] + b;
      InsertsAppend(a[1..], b);
    } else {
      assert a + b == b;
    }
  }

  /** Two traces that each write the store only after a successful
      retrieval still do so once concatenated. The second cannot start with
      a write, since each of its writes has a lookup right before it. */
  lemma FollowAppend(client: Client, a: seq<Call>, b: seq<Call>)
    requires InsertsFollowRetrieval(client, a) && InsertsFollowRetrieval(client, b)
    ensures InsertsFollowRetrieval(client, a + b)
  {
    var c := a + b;
    forall i | 0 <= i < |c| && c[i].InsertERC20?
      ensures 0 < i && c[i - 1].GetERC20?
      ensures client(c[i - 1].address, c[i - 1].blockNumber) == Found(c[i].token)
    {
      if i < |a| {
        assert c[i] == a[i] && c[i - 1] == a[i - 1];
      } else {
        var j := i - |a|;
        assert c[i] == b[j];
        assert 0 < j;
        assert c[i - 1] == b[j - 1];
      }
    }
  }

  /** The tokens the client finds for the requests, in order. */
  function FoundTokens(srv: Server, hexToAddress: string -> Address, reqs: seq<Request>)
    : (found: seq<Token>)
    ensures |found| <= |reqs|
  {
    if reqs == [] then []
    else
      var answer := Answer(srv, hexToAddress, reqs[0]);
      (if answer.Found? then [answer.token] else []) + FoundTokens(srv, hexToAddress, reqs[1..])
  }

  /** Every token in the list is the client's answer to one of the requests. */
  lemma {:induction false} FoundTokensSound(
    srv: Server, hexToAddress: string -> Address, reqs: seq<Request>, t: Token)
    requires t in FoundTokens(srv, hexToAddress, reqs)
    ensures exists i :: 0 <= i < |reqs| && Answer(srv, hexToAddress, reqs[i]) == Found(t)
    decreases |reqs|
  {
    var answer := Answer(srv, hexToAddress, reqs[0]);
    if answer.Found? && t == answer.token {
      assert Answer(srv, hexToAddress, reqs[0]) == Found(t);
    } else {
      FoundTokensSound(srv, hexToAddress, reqs[1..], t);
      var j :| 0 <= j < |reqs[1..]| && Answer(srv, hexToAddress, reqs[1..][j]) == Found(t);
      assert reqs[1..][j] == reqs[j + 1];
    }
  }

  /** Every token the client finds for a request is in the list. */
  lemma {:induction false} FoundTokensComplete(
    srv: Server, hexToAddress: string -> Address, reqs: seq<Request>, i: nat)
    requires i < |reqs| && Answer(srv, hexToAddress, reqs[i]).Found?
    ensures Answer(srv, hexToAddress, reqs[i]).token in FoundTokens(srv, hexToAddress, reqs)
    decreases |reqs|
  {
    if i > 0 {
      assert reqs[i] == reqs[1..][i - 1];
      FoundTokensComplete(srv, hexToAddress, reqs[1..], i - 1);
    }
  }

  /** Adding a request to the end of the series adds its found token, if
      any, to the end of the list, and nothing else: with FoundTokens([]) ==
      [] this fixes the list as one entry per found request, in order. */
  lemma {:induction false} FoundTokensSnoc(
    srv: Server, hexToAddress: string -> Address, reqs: seq<Request>, req: Request)
    ensures var answer := Answer(srv, hexToAddress, req);
      FoundTokens(srv, hexToAddress, reqs + [req])
        == FoundTokens(srv, hexToAddress, reqs) + (if answer.Found? then [answer.token] else [])
    decreases |reqs|
  {
    if reqs == [] {
      assert [] + [req] == [req] && [req][1..] == [];
    } else {
      assert (reqs + [req])[0] == reqs[0] && (reqs + [req])[1..] == reqs[1..] + [req];
      FoundTokensSnoc(srv, hexToAddress, reqs[1..], req);
    }
  }

  /** Serves the requests in order with the same server, starting from the
      store's rows `rows`: each request against the rows the earlier ones
      left. */
  function Serve(srv: Server, hexToAddress: string -> Address, rows: seq<Token>, reqs: seq<Request>)
    : (s: Session)
    // one outcome per request
    ensures |s.outcomes| == |reqs|
    // rows already stored stay; new ones only come after them
    ensures rows <= s.rows
    decreases |reqs|
  {
    if reqs == [] then Session([], [], rows)
    else
      var h := AddERC20(srv, hexToAddress, rows, reqs[0]);
      var rest := Serve(srv, hexToAddress, h.rows, reqs[1..]);
      Session([h.outcome] + rest.outcomes, h.calls + rest.calls, rest.rows)
  }

  /** Serving a non-empty series: the first call, then the rest against the
      rows it left. */
  lemma ServeCons(srv: Server, hexToAddress: string -> Address, rows: seq<Token>, reqs: seq<Request>)
    requires reqs != []
    ensures var h := AddERC20(srv, hexToAddress, rows, reqs[0]);
      var rest := Serve(srv, hexToAddress, h.rows, reqs[1..]);
      Serve(srv, hexToAddress, rows, reqs)
        == Session([h.outcome] + rest.outcomes, h.calls + rest.calls, rest.rows)
  {
  }

  /** The client is queried once per request, in order, with that request's
      decoded address and block number. */
  lemma {:induction false} ServeQueries(
    srv: Server, hexToAddress: string -> Address, rows: seq<Token>, reqs: seq<Request>)
    ensures var s := Serve(srv, hexToAddress, rows, reqs);
      |Queries(s.calls)| == |reqs|
      && forall i :: 0 <= i < |reqs| ==>
        Queries(s.calls)[i] == (hexToAddress(reqs[i].address), reqs[i].blockNumber)
    decreases |reqs|
  {
    if reqs != [] {
      var h := AddERC20(srv, hexToAddress, rows, reqs[0]);
      var rest := Serve(srv, hexToAddress, h.rows, reqs[1..]);
      ServeCons(srv, hexToAddress, rows, reqs);
      ServeQueries(srv, hexToAddress, h.rows, reqs[1..]);
      QueriesAppend(h.calls, rest.calls);
      assert forall i :: 0 < i < |reqs| ==> reqs[i] == reqs[1..][i - 1];
    }
  }

  /** The store is written with exactly the tokens the client found, in
      request order. */
  lemma {:induction false} ServeInserts(
    srv: Server, hexToAddress: string -> Address, rows: seq<Token>, reqs: seq<Request>)
    ensures Inserts(Serve(srv, hexToAddress, rows, reqs).calls) == FoundTokens(srv, hexToAddress, reqs)
    decreases |reqs|
  {
    if reqs != [] {
      var h := AddERC20(srv, hexToAddress, rows, reqs[0]);
      var rest := Serve(srv, hexToAddress, h.rows, reqs[1..]);
      ServeCons(srv, hexToAddress, rows, reqs);
      ServeInserts(srv, hexToAddress, h.rows, reqs[1..]);
      InsertsAppend(h.calls, rest.calls);
    }
  }

  /** Over the whole series, no write reaches the store unless the lookup
      right before it returned that token. */
  lemma {:induction false} ServeFollowsRetrieval(
    srv: Server, hexToAddress: string -> Address, rows: seq<Token>, reqs: seq<Request>)
    ensures InsertsFollowRetrieval(srv.client, Serve(srv, hexToAddress, rows, reqs).calls)
    decreases |reqs|
  {
    if reqs != [] {
      var h := AddERC20(srv, hexToAddress, rows, reqs[0]);
      var rest := Serve(srv, hexToAddress, h.rows, reqs[1..]);
      ServeCons(srv, hexToAddress, rows, reqs);
      ServeFollowsRetrieval(srv, hexToAddress, h.rows, reqs[1..]);
      FollowAppend(srv.client, h.calls, rest.calls);
    }
  }

  /** The response of a successful outcome: one, or none. */
  function ResponseOf(o: Outcome): seq<Response>
  {
    if o.Ok? then [o.response] else []
  }

  /** The responses of the successful outcomes, in order. */
  function Responses(outcomes: seq<Outcome>): seq<Response>
  {
    if outcomes == [] then [] else ResponseOf(outcomes[0]) + Responses(outcomes[1..])
  }

  /** A response describes a token when it carries its name, total supply
      and decimals, unchanged in value. */
  ghost predicate Describes(r: Response, t: Token)
  {
    r.name == t.name && r.totalSupply == t.totalSupply && r.decimals as int == t.decimals as int
  }

  lemma ResponsesCons(o: Outcome, os: seq<Outcome>)
    ensures Responses([o] + os) == ResponseOf(o) + Responses(os)
  {
    assert ([o] + os)[1..] == os;
  }

  /** The successful responses and the added rows correspond one to one,
      in order, each response describing its row's token. */
  ghost predicate Matches(responses: seq<Response>, written: seq<Token>)
  {
    |responses| == |written|
    && forall k :: 0 <= k < |responses| ==> Describes(responses[k], written[k])
  }

  lemma MatchesAppend(r1: seq<Response>, w1: seq<Token>, r2: seq<Response>, w2: seq<Token>)
    requires Matches(r1, w1) && Matches(r2, w2)
    ensures Matches(r1 + r2, w1 + w2)
  {
    forall k | 0 <= k < |r1 + r2|
      ensures Describes((r1 + r2)[k], (w1 + w2)[k])
    {
      if k < |r1| {
        assert (r1 + r2)[k] == r1[k] && (w1 + w2)[k] == w1[k];
      } else {
        assert (r1 + r2)[k] == r2[k - |r1|] && (w1 + w2)[k] == w2[k - |w1|];
      }
    }
  }

  /** One call: a row is added exactly when a response comes back, and that
      response describes the added token. */
  lemma CallWritesMatchResponse(
    srv: Server, hexToAddress: string -> Address, rows: seq<Token>, req: Request)
    ensures var h := AddERC20(srv, hexToAddress, rows, req);
      rows <= h.rows && Matches(ResponseOf(h.outcome), h.rows[|rows|..])
  {
    var h := AddERC20(srv, hexToAddress, rows, req);
    if h.outcome.Ok? {
      assert h.rows[|rows|..] == [Answer(srv, hexToAddress, req).token];
    } else {
      assert h.rows[|rows|..] == [];
    }
  }

  /** The rows a call adds, followed by the rows the rest of the series
      adds, are the rows the whole series adds. */
  lemma RowsAdded(a: seq<Token>, b: seq<Token>, c: seq<Token>)
    requires a <= b <= c
    ensures c[|a|..] == b[|a|..] + c[|b|..]
  {
  }

  /** No partial persistence: over a whole series, the rows added to the
      store and the successful responses correspond one to one, in order,
      each response describing the token stored for it. */
  lemma {:induction false} WritesMatchResponses(
    srv: Server, hexToAddress: string -> Address, rows: seq<Token>, reqs: seq<Request>)
    ensures var s := Serve(srv, hexToAddress, rows, reqs);
      Matches(Responses(s.outcomes), s.rows[|rows|..])
    decreases |reqs|
  {
    if reqs == [] {
      assert Serve(srv, hexToAddress, rows, reqs).rows[|rows|..] == [];
    } else {
      var h := AddERC20(srv, hexToAddress, rows, reqs[0]);
      var rest := Serve(srv, hexToAddress, h.rows, reqs[1..]);
      ServeCons(srv, hexToAddress, rows, reqs);
      WritesMatchResponses(srv, hexToAddress, h.rows, reqs[1..]);
      CallWritesMatchResponse(srv, hexToAddress, rows, reqs[0]);
      ResponsesCons(h.outcome, rest.outcomes);
      RowsAdded(rows, h.rows, rest.rows);
      MatchesAppend(
        ResponseOf(h.outcome), h.rows[|rows|..],
        Responses(rest.outcomes), rest.rows[|h.rows|..]);
    }
  }

  lemma AppendAssociative<T>(x: seq<T>, y: seq<T>, z: seq<T>)
    ensures x + (y + z) == (x + y) + z
  {
  }

  /** Serving two batches one after the other, the second against the rows
      the first left, is serving them together: the server itself carries
      nothing from one call to the next. */
  lemma {:induction false} ServeSplit(
    srv: Server, hexToAddress: string -> Address, rows: seq<Token>, a: seq<Request>, b: seq<Request>)
    ensures var left := Serve(srv, hexToAddress, rows, a);
      var right := Serve(srv, hexToAddress, left.rows, b);
      Serve(srv, hexToAddress, rows, a + b)
        == Session(left.outcomes + right.outcomes, left.calls + right.calls, right.rows)
    decreases |a|
  {
    if a == [] {
      assert a + b == b;
    } else {
      assert (a + b)[0] == a[0] && (a + b)[1..] == a[1..] + b;
      var h := AddERC20(srv, hexToAddress, rows, a[0]);
      ServeSplit(srv, hexToAddress, h.rows, a[1..], b);
      ServeCons(srv, hexToAddress, rows, a + b);
      ServeCons(srv, hexToAddress, rows, a);
      var leftTail := Serve(srv, hexToAddress, h.rows, a[1..]);
      var right := Serve(srv, hexToAddress, leftTail.rows, b);
      AppendAssociative([h.outcome], leftTail.outcomes, right.outcomes);
      AppendAssociative(h.calls, leftTail.calls, right.calls);
    }
  }

  /** Serving one more request after a series: it is handled against the
      rows the series left, and its outcome and calls come last. */
  lemma ServeSnoc(
    srv: Server, hexToAddress: string -> Address, rows: seq<Token>, reqs: seq<Request>, req: Request)
    ensures var before := Serve(srv, hexToAddress, rows, reqs);
      var h := AddERC20(srv, hexToAddress, before.rows, req);
      Serve(srv, hexToAddress, rows, reqs + [req])
        == Session(before.outcomes + [h.outcome], before.calls + h.calls, h.rows)
  {
    var before := Serve(srv, hexToAddress, rows, reqs);
    var h := AddERC20(srv, hexToAddress, before.rows, req);
    assert [req][1..] == [];
    var rest := Serve(srv, hexToAddress, h.rows, []);
    assert rest == Session([], [], h.rows);
    ServeCons(srv, hexToAddress, before.rows, [req]);
    assert Serve(srv, hexToAddress, before.rows, [req]) == Session([h.outcome], h.calls, h.rows) by {
      assert [h.outcome] + rest.outcomes == [h.outcome] && h.calls + rest.calls == h.calls;
    }
    ServeSplit(srv, hexToAddress, rows, reqs, [req]);
  }

  /** The i-th request of a series is handled exactly as AddERC20 handles
      it alone against the rows the requests before it left: its outcome,
      and the rows after it. */
  lemma ServeOutcomeAt(
    srv: Server, hexToAddress: string -> Address, rows: seq<Token>, reqs: seq<Request>, i: nat)
    requires i < |reqs|
    ensures var before := Serve(srv, hexToAddress, rows, reqs[..i]);
      var h := AddERC20(srv, hexToAddress, before.rows, reqs[i]);
      Serve(srv, hexToAddress, rows, reqs).outcomes[i] == h.outcome
      && Serve(srv, hexToAddress, rows, reqs[..i + 1]).rows == h.rows
  {
    var upTo, after := reqs[..i + 1], reqs[i + 1..];
    assert reqs == upTo + after && upTo == reqs[..i] + [reqs[i]];
    ServeSnoc(srv, hexToAddress, rows, reqs[..i], reqs[i]);
    ServeSplit(srv, hexToAddress, rows, upTo, after);
  }

  /** Each outcome of a series follows the classification table for its own
      request. */
  lemma ServeClassified(
    srv: Server, hexToAddress: string -> Address, rows: seq<Token>, reqs: seq<Request>)
    ensures var s := Serve(srv, hexToAddress, rows, reqs);
      forall i :: 0 <= i < |reqs| ==> Classified(srv, hexToAddress, reqs[i], s.outcomes[i])
  {
    forall i | 0 <= i < |reqs|
      ensures Classified(srv, hexToAddress, reqs[i], Serve(srv, hexToAddress, rows, reqs).outcomes[i])
    {
      ServeOutcomeAt(srv, hexToAddress, rows, reqs, i);
    }
  }

  /** Two tokens with the same (address, block number) key. */
  ghost predicate SameKey(t: Token, u: Token)
  {
    t.address == u.address && t.blockNumber == u.blockNumber
  }

  /** A store that refuses a token whose key is already stored. */
  ghost predicate RefusesDuplicates(store: Store)
  {
    forall rows: seq<Token>, t: Token, k :: 0 <= k < |rows| && SameKey(rows[k], t) ==>
      store(rows, t) == InsertFailed
  }

  /** Against a store that refuses duplicate keys, repeating a request that
      succeeded fails with ErrInternal and stores nothing more: the
      repetition is detected by the store, never answered from memory. */
  lemma RepeatedRequestRefused(
    srv: Server, hexToAddress: string -> Address, rows: seq<Token>, req: Request)
    requires RefusesDuplicates(srv.store)
    requires AddERC20(srv, hexToAddress, rows, req).outcome.Ok?
    ensures var first := AddERC20(srv, hexToAddress, rows, req);
      var s := Serve(srv, hexToAddress, rows, [req, req]);
      s.outcomes == [first.outcome, ErrInternal] && s.rows == first.rows
    ensures var s := Serve(srv, hexToAddress, rows, [req, req]);
      var t := Answer(srv, hexToAddress, req).token;
      Inserts(s.calls) == [t, t]
  {
    var first := AddERC20(srv, hexToAddress, rows, req);
    var t := Answer(srv, hexToAddress, req).token;
    assert first.rows[|rows|] == t && SameKey(first.rows[|rows|], t);
    assert srv.store(first.rows, t) == InsertFailed;
    ServeCons(srv, hexToAddress, rows, [req, req]);
    ServeCons(srv, hexToAddress, first.rows, [req]);
    assert [req, req][1..] == [req] && [req][1..] == [];
    ServeInserts(srv, hexToAddress, rows, [req, req]);
    assert FoundTokens(srv, hexToAddress, [req]) == [t];
  }
}
