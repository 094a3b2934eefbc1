/** The ERC20 registration handler, AddERC20, of the gRPC server built by
    New(store, client): it asks the chain client for the token at the
    requested address and height, inserts it into the store once, and
    projects it into the response; every failure becomes ErrInternal or
    ErrInvalidAddress. The collaborators are the two functions the server
    was built with; the store answers from the rows it already holds. The
    handler also reports the calls it made on them, in order, as the mocks
    record them, and the store's rows afterwards. */
module Erc20Service {
  import opened Erc20Types

  /** The chain client: GetERC20 at an address and block height. */
  type Client = (Address, uint64) -> ClientResult

  /** The store: whether InsertERC20 of a token succeeds may depend on the
      rows already stored (a uniqueness constraint, for one); a successful
      insert adds the token as a new row. */
  type Store = (seq<Token>, Token) -> StoreResult

  /** The server holds its injected store and client and nothing else. */
  datatype Server = New(store: Store, client: Client)

  /** One handled request: the outcome, the collaborator calls made, and
      the store's rows afterwards. */
  datatype Handling = Handling(outcome: Outcome, calls: seq<Call>, rows: seq<Token>)

  /** The client's answer to the lookup a request asks for. */
  function Answer(srv: Server, hexToAddress: string -> Address, req: Request): ClientResult
  {
    srv.client(hexToAddress(req.address), req.blockNumber)
  }

  /** The (address, block) arguments of the GetERC20 calls, in order. */
  function Queries(calls: seq<Call>): seq<(Address, uint64)>
  {
    if calls == [] then []
    else
      (if calls[0].GetERC20? then [(calls[0].address, calls[0].blockNumber)] else [])
      + Queries(calls[1..])
  }

  /** The tokens handed to InsertERC20, in order. */
  function Inserts(calls: seq<Call>): seq<Token>
  {
    if calls == [] then []
    else (if calls[0].InsertERC20? then [calls[0].token] else []) + Inserts(calls[1..])
  }

  /** No store write unless retrieval succeeded: every InsertERC20 comes
      right after a GetERC20 whose answer was that very token. */
  ghost predicate InsertsFollowRetrieval(client: Client, calls: seq<Call>)
  {
    forall i :: 0 <= i < |calls| && calls[i].InsertERC20? ==>
      0 < i && calls[i - 1].GetERC20?
      && client(calls[i - 1].address, calls[i - 1].blockNumber) == Found(calls[i].token)
  }

  /** The response built from the request and the token the client found:
      the request's address string and height, the token's name and total
      supply, and its decimals widened to int64. */
  function ToResponse(req: Request, token: Token): (r: Response)
    ensures r.address == req.address && r.blockNumber == req.blockNumber
    ensures r.name == token.name && r.totalSupply == token.totalSupply
    ensures r.decimals as int == token.decimals as int
  {
    Response(req.address, req.blockNumber, token.totalSupply, token.name, token.decimals as int64)
  }

  /** The classification table for one request: not-found is
      ErrInvalidAddress, any other client error is ErrInternal, and a
      response is only ever the projection of the token the client found. */
  ghost predicate Classified(srv: Server, hexToAddress: string -> Address, req: Request, o: Outcome)
  {
    var answer := Answer(srv, hexToAddress, req);
    && (o == ErrInvalidAddress <==> answer.NotFound?)
    && (answer.Failed? ==> o == ErrInternal)
    && (o.Ok? ==> answer.Found? && o.response == ToResponse(req, answer.token))
  }

  /** AddERC20 against a store holding `rows`: the classification of the
      collaborators' answers into the handler's outcome, the calls made on
      the way, and the rows the store holds afterwards. */
  function AddERC20(srv: Server, hexToAddress: string -> Address, rows: seq<Token>, req: Request)
    : (h: Handling)
    // the client is queried once, first, with the decoded address and the request's height
    ensures |h.calls| > 0 && h.calls[0] == GetERC20(hexToAddress(req.address), req.blockNumber)
    ensures Queries(h.calls) == [(hexToAddress(req.address), req.blockNumber)]
    // the store is written once, with the client's own token, exactly when retrieval succeeded
    ensures var answer := Answer(srv, hexToAddress, req);
      Inserts(h.calls) == if answer.Found? then [answer.token] else []
    ensures InsertsFollowRetrieval(srv.client, h.calls)
    // the classification table
    ensures Classified(srv, hexToAddress, req, h.outcome)
    ensures var answer := Answer(srv, hexToAddress, req);
      h.outcome == ErrInternal <==>
        answer.Failed? || (answer.Found? && srv.store(rows, answer.token) == InsertFailed)
    ensures var answer := Answer(srv, hexToAddress, req);
      h.outcome.Ok? <==> answer.Found? && srv.store(rows, answer.token) == Inserted
    // a row is added, the token itself, exactly when a response comes back
    ensures h.rows == if h.outcome.Ok? then rows + [Answer(srv, hexToAddress, req).token] else rows
  {
    var addr := hexToAddress(req.address);
    var get := GetERC20(addr, req.blockNumber);
    match srv.client(addr, req.blockNumber)
    case NotFound => Handling(ErrInvalidAddress, [get], rows)
    case Failed => Handling(ErrInternal, [get], rows)
    case Found(token) =>
      var calls := [get, InsertERC20(token)];
      assert calls[1..] == [InsertERC20(token)] && calls[1..][1..] == [];
      assert Queries(calls[1..]) == [] && Inserts(calls[1..]) == [token];
      match srv.store(rows, token)
      case InsertFailed => Handling(ErrInternal, calls, rows)
      case Inserted => Handling(Ok(ToResponse(req, token)), calls, rows + [token])
  }

  /** The (response, error) pair the Go method returns for an outcome. */
  function Reply(o: Outcome): (r: (Option<Response>, Option<ServiceError>))
    ensures r.0.Some? <==> r.1.None?
    ensures r.0.Some? ==> o == Ok(r.0.value)
    ensures r.1 == Some(Internal) <==> o == ErrInternal
    ensures r.1 == Some(InvalidAddress) <==> o == ErrInvalidAddress
  {
    match o
    case Ok(response) => (Some(response), None)
    case ErrInternal => (None, Some(Internal))
    case ErrInvalidAddress => (None, Some(InvalidAddress))
  }

  /** What the response keeps of the token: two responses are equal exactly
      when the requests are equal and the tokens agree on name, decimals
      and total supply. The token's address bytes, block number and code
      are not part of the response. */
  lemma ResponseDeterminesToken(req1: Request, t1: Token, req2: Request, t2: Token)
    ensures ToResponse(req1, t1) == ToResponse(req2, t2) <==>
      req1 == req2 && t1.name == t2.name && t1.decimals == t2.decimals
      && t1.totalSupply == t2.totalSupply
  {
    var r1, r2 := ToResponse(req1, t1), ToResponse(req2, t2);
    if r1 == r2 {
      assert t1.decimals as int == r1.decimals as int == t2.decimals as int;
    }
  }

  /** The response's block number is the request's; it is also the stored
      token's whenever the client answers with a token captured at the
      requested height, as it does in every case of the test suite. */
  lemma ResponseBlockIsTokenBlock(
    srv: Server, hexToAddress: string -> Address, rows: seq<Token>, req: Request)
    requires Answer(srv, hexToAddress, req).Found?
    requires Answer(srv, hexToAddress, req).token.blockNumber == req.blockNumber
    ensures var h := AddERC20(srv, hexToAddress, rows, req);
      h.outcome.Ok? ==>
        h.outcome.response.blockNumber == req.blockNumber == h.rows[|rows|].blockNumber
  {
  }

  /** The Go pair never carries both a response and an error, nor neither. */
  lemma ReplyExclusive(srv: Server, hexToAddress: string -> Address, rows: seq<Token>, req: Request)
    ensures var (res, err) := Reply(AddERC20(srv, hexToAddress, rows, req).outcome);
      (res == None <==> err != None) && (err == None ==> res.value.address == req.address)
  {
  }
}
