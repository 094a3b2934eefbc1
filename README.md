# ERC20 registration in eth-indexer, modelled in Dafny

This project models the `AddERC20` call of eth-indexer's ERC20 gRPC server.
A server built by `New(store, client)` takes a request carrying a hex
address and a block number. It asks the chain client for the ERC20 token at
that address and height. When the client finds it, the server inserts the
token into the store once. It then answers with a response projected from
the token. Every failure becomes one of two sentinel errors:

| client answer | store answer | outcome | calls made |
|---|---|---|---|
| `ethereum.NotFound` | not called | `ErrInvalidAddress` | GetERC20 |
| any other error | not called | `ErrInternal` | GetERC20 |
| token | error | `ErrInternal` | GetERC20, InsertERC20(token) |
| token | no error | response | GetERC20, InsertERC20(token) |

The handler's implementation file is not part of this model. Its behaviour
comes from the Ginkgo suite `service/erc20/grpc_test.go`. In that suite,
mocked collaborators expect each call `Once`, and the mocks are asserted
after every case.

Files:

- `erc20_types.dfy` (module `Erc20Types`) holds the values. These are the
  token (`model.ERC20`), the request and response messages, and fixed-width
  integers as newtypes. It also holds the tagged answers of the client
  (`Found | NotFound | Failed`) and of the store (`Inserted | InsertFailed`),
  the handler's `Outcome` (`Ok(response) | ErrInternal | ErrInvalidAddress`),
  and the `Call` records a mock keeps.
- `erc20_service.dfy` (module `Erc20Service`) holds the server. It has two
  fields, the injected store and client, both modelled as functions. The
  store's answer to an insert may depend on the rows it already holds, and
  a successful insert adds the token as a new row. `AddERC20` takes the
  store's current rows. It returns the outcome, the list of collaborator
  calls it made in order, and the rows afterwards. `Reply` maps an outcome
  to Go's `(response, error)` pair.
- `erc20_session.dfy` (module `Erc20Session`) covers one server answering a
  series of requests against one store. The server keeps nothing between
  calls. The store's rows carry over, so each request is served against the
  rows the earlier ones left. Its proofs work by induction.
- `erc20_scenarios.dfy` (module `Erc20Scenarios`) states the suite's four
  cases. Each lemma holds for every server whose mocks answer the expected
  calls the way that case sets them up.

The model has no separate rejection of a malformed address string before
the client is called. No code or test supports one, because `HexToAddress`
accepts any string. The address decoder is a parameter.

## Model

| member | source | states |
|---|---|---|
| Erc20Service.AddERC20 | service/erc20/grpc_test.go:54-123 | The client is queried exactly once, as the first call, with the decoded address and the request's block number. The store receives exactly the client's token, once, if and only if the client found it, and always after that successful lookup. The outcome is `ErrInvalidAddress` iff the client reports not-found. It is `ErrInternal` iff the client fails otherwise or the insert fails. It is `Ok` iff the insert succeeds, and the response is then the projection of the request and the token. Exactly on `Ok`, the token is added as the store's one new row. |
| Erc20Service.ToResponse | service/erc20/grpc_test.go:68-74 | The response carries the request's address string and block number and the token's name and total supply. Its `Decimals` equals the token's decimals in value after widening to int64. |
| Erc20Service.ResponseDeterminesToken | service/erc20/grpc_test.go:68-74 | The response keeps the token's name, decimals and total supply, and nothing else of it. Two responses are equal iff their requests are equal and their tokens agree on those three fields. |
| Erc20Service.ResponseBlockIsTokenBlock | service/erc20/grpc_test.go:60-70 | Suppose the client's token was captured at the requested height, as in every test case. Then an `Ok` response's block number equals the block number of the row just stored. |
| Erc20Service.Reply | service/erc20/grpc_test.go:98-100 | Go's pair has a response iff it has no error. A response is returned only for `Ok`. The error is `ErrInternal` or `ErrInvalidAddress` exactly for the matching outcome. |
| Erc20Service.ReplyExclusive | service/erc20/grpc_test.go:77-79 | For every server and request, `AddERC20` returns either a response or an error, never both and never neither. When there is no error, the response carries the request's address. |
| Erc20Session.Serve | service/erc20/grpc_test.go:40-48 | A server built once answers a series of requests against one store, each request against the rows the earlier ones left. There is one outcome per request. Rows already stored are kept, and new rows only come after them. |
| Erc20Session.ServeOutcomeAt | service/erc20/grpc_test.go:75-79 | The i-th outcome of a series is exactly the outcome `AddERC20` gives for the i-th request alone, against the rows the first i requests left. The rows after the first i+1 requests are the rows that call leaves. This covers both the client's and the store's columns of the table. |
| Erc20Session.ServeClassified | service/erc20/grpc_test.go:75-122 | Each outcome of a series follows the client's part of the classification table for its own request: `ErrInvalidAddress` iff not-found, `ErrInternal` on any other client error, and a response only as the projection of the token the client found. |
| Erc20Session.ServeQueries | service/erc20/grpc_test.go:75 | The client is queried once per request, in order, with that request's decoded address and block number. |
| Erc20Session.ServeInserts | service/erc20/grpc_test.go:75-76 | The tokens written to the store are exactly the tokens the client found, in request order. |
| Erc20Session.ServeFollowsRetrieval | service/erc20/grpc_test.go:75-76 | Over the whole series, no write reaches the store unless the lookup just before it returned that token. |
| Erc20Session.ServeSnoc | service/erc20/grpc_test.go:40-44 | Serving one more request after a series handles it against the rows the series left. Its outcome and calls come after the series' own. |
| Erc20Session.FoundTokens | service/erc20/grpc_test.go:75-76 | There are no more found tokens than requests. |
| Erc20Session.FoundTokensSound | service/erc20/grpc_test.go:75-76 | Every token in the list is the client's answer to one of the requests. |
| Erc20Session.FoundTokensComplete | service/erc20/grpc_test.go:75-76 | Every token the client finds for one of the requests is in the list. |
| Erc20Session.FoundTokensSnoc | service/erc20/grpc_test.go:75-76 | Adding a request at the end adds its found token, if any, at the end of the list, and nothing else. Together with the empty series, this fixes the list as exactly one entry per found request, in request order. |
| Erc20Session.WritesMatchResponses | service/erc20/grpc_test.go:75-100 | Over a whole series, the rows added to the store match the successful responses one to one and in order. Each response carries its row's name, total supply and decimals. There is no added row without a response and no response without an added row. |
| Erc20Session.ServeSplit | service/erc20/grpc_test.go:40-44 | Serve the first batch, then the second against the rows the first left. This gives the same outcomes, call log and final rows as serving both batches together. Only the store's rows carry over between calls, never anything in the server. |
| Erc20Session.RepeatedRequestRefused | service/erc20/grpc_test.go:82-100 | Take a store that refuses a token whose (address, block number) key is already stored. Repeating a request that succeeded then fails with `ErrInternal` and adds no row. The store still receives the token twice, once per request. The repeat is detected by the store, not answered from memory. |
| Erc20Session.FollowAppend | service/erc20/grpc_test.go:45-48 | Concatenating two call logs in which every insert follows a successful lookup of its token gives a log with the same property. |
| Erc20Session.CallWritesMatchResponse | service/erc20/grpc_test.go:76-79 | A single call keeps the existing rows. It adds a row exactly when it returns a response, and that response describes the added token. |
| Erc20Scenarios.ValidParameters | service/erc20/grpc_test.go:54-80 | Suppose the client returns the token for address `0x…01` at block 100 and the store accepts it. Then the result is the expected response with no error. The calls are exactly GetERC20(addr, 100) and then InsertERC20(token). |
| Erc20Scenarios.FailedToInsert | service/erc20/grpc_test.go:82-101 | Suppose the client returns the token and the insert fails. Then the result is `ErrInternal` with no response, after exactly the two expected calls. |
| Erc20Scenarios.UnknownClientError | service/erc20/grpc_test.go:102-112 | Suppose the client fails with an unknown error. Then the result is `ErrInternal` with no response, and the only call is the GetERC20. The store is never called. |
| Erc20Scenarios.ContractNotFound | service/erc20/grpc_test.go:113-123 | Suppose the client reports `ethereum.NotFound`. Then the result is `ErrInvalidAddress` with no response, and the only call is the GetERC20. The store is never called. |

## Left out

- `store/transaction/transaction.go` is not part of this model. Its `Insert`, `FindTransaction` and `FindTransactionsByBlockHash` only forward to gorm queries, which are database I/O with no logic of their own.
- Hex decoding and encoding of addresses (go-ethereum's `HexToAddress` and `Address.Hex`) is a foreign library. The decoder is a parameter `hexToAddress: string -> Address`. The scenarios assume `HexToAddress(addr.Hex()) == addr` for their one address.
- The model has no rejection of malformed address strings. No test exercises one, and `HexToAddress` accepts any string.
- The `context.Context` argument, cancellation, deadlines and the gRPC framework are out of scope. They are plumbing and concurrency.
- Concurrent registrations of the same address and height are left out. A series of requests is served one call after another.
- The database schema is not part of this model. Whether it refuses a duplicate (address, block number) key is therefore open, so the store is any function of its rows and the token. `Erc20Session.RepeatedRequestRefused` states the consequence for a store that does refuse duplicates: a repeated request fails with `ErrInternal`. For a store that accepts duplicates, the repeat succeeds again and adds a second row.
- Erc20Session.RepeatedRequestRefused: the client is a fixed function of (address, height), so within a series it answers the same key the same way on every call. A live node can answer differently from one call to the next, for example through a transient fault that clears or appears later; that is not modelled. This lemma's second insert of the token rests on that assumption: if the repeated lookup failed, the store would not be called. `Erc20Session.ServeFollowsRetrieval` reads the same way: the `Call` log records the lookup's arguments, not its answer, so "the lookup returned that token" is stated through the client function.
- The mock and assertion machinery (testify, Ginkgo, Gomega) is not modelled. Only the calls it records and the results it asserts are kept, as the `Call` list and the outcome.
- The token's `Code` bytes are carried through to the store but never read. They are an opaque byte sequence.
- Token decimals are modelled as an 8-bit unsigned value, the 0–255 range of ERC20 decimals. The Go field's declared type is not part of this model.
- The response's `Address` echoes the request's address string, as the first case expects. The case's request string is already in canonical `Hex()` form, so re-encoding the token's address would give the same string there.
- Erc20Service.ToResponse: the response's `BlockNumber` is the request's, as the first case builds its expected response (line 70). The tests cannot tell this apart from the stored token's block number, because the token is built with the request's height (line 61). When the client returns a token from another height, the two differ. `Erc20Service.ResponseBlockIsTokenBlock` states the case where they agree.
