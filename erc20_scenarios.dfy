/** The four AddERC20 cases of the service's test suite, each stated for
    every server whose mocked client and store answer the expected calls as
    the case sets them up. The expected call list is the set of mock
    expectations, each registered Once: a handler trace equal to it meets
    every expectation exactly once and makes no call the mocks do not expect.
    The store starts from any rows; only a successful insert adds one. */
module Erc20Scenarios {
  import opened Erc20Types
  import opened Erc20Service

  /** HexToAddress("0x01"): nineteen zero bytes, then 1. */
  const ADDR: Address := seq(19, _ => 0) + [1]

  /** ADDR.Hex(): the address as 40 hex digits after "0x". */
  const ADDR_HEX := "0x0000000000000000000000000000000000000001"

  const BLOCK: uint64 := 100

  const REQ := Request(ADDR_HEX, BLOCK)

  /** The token the mocked client returns; its code is the bytes of "1234567890". */
  const TOKEN := Token(
    BLOCK, ADDR, [0x31, 0x32, 0x33, 0x34, 0x35, 0x36, 0x37, 0x38, 0x39, 0x30],
    "name", 18, "123")

  /** The response the first case expects. */
  const EXPECTED := Response(ADDR_HEX, BLOCK, "123", "name", 18)

  lemma ValidParameters(srv: Server, hexToAddress: string -> Address, rows: seq<Token>)
    requires hexToAddress(ADDR_HEX) == ADDR
    requires srv.client(ADDR, BLOCK) == Found(TOKEN)
    requires srv.store(rows, TOKEN) == Inserted
    ensures AddERC20(srv, hexToAddress, rows, REQ)
      == Handling(Ok(EXPECTED), [GetERC20(ADDR, BLOCK), InsertERC20(TOKEN)], rows + [TOKEN])
    ensures Reply(AddERC20(srv, hexToAddress, rows, REQ).outcome) == (Some(EXPECTED), None)
  {
  }

  lemma FailedToInsert(srv: Server, hexToAddress: string -> Address, rows: seq<Token>)
    requires hexToAddress(ADDR_HEX) == ADDR
    requires srv.client(ADDR, BLOCK) == Found(TOKEN)
    requires srv.store(rows, TOKEN) == InsertFailed
    ensures AddERC20(srv, hexToAddress, rows, REQ)
      == Handling(ErrInternal, [GetERC20(ADDR, BLOCK), InsertERC20(TOKEN)], rows)
    ensures Reply(AddERC20(srv, hexToAddress, rows, REQ).outcome) == (None, Some(Internal))
  {
  }

  lemma UnknownClientError(srv: Server, hexToAddress: string -> Address, rows: seq<Token>)
    requires hexToAddress(ADDR_HEX) == ADDR
    requires srv.client(ADDR, BLOCK) == Failed
    ensures AddERC20(srv, hexToAddress, rows, REQ)
      == Handling(ErrInternal, [GetERC20(ADDR, BLOCK)], rows)
    ensures Reply(AddERC20(srv, hexToAddress, rows, REQ).outcome) == (None, Some(Internal))
  {
  }

  lemma ContractNotFound(srv: Server, hexToAddress: string -> Address, rows: seq<Token>)
    requires hexToAddress(ADDR_HEX) == ADDR
    requires srv.client(ADDR, BLOCK) == NotFound
    ensures AddERC20(srv, hexToAddress, rows, REQ)
      == Handling(ErrInvalidAddress, [GetERC20(ADDR, BLOCK)], rows)
    ensures Reply(AddERC20(srv, hexToAddress, rows, REQ).outcome) == (None, Some(InvalidAddress))
  {
  }
}
