/** Values exchanged by the ERC20 registration service: the token snapshot
    the chain client returns and the store persists, the request and
    response messages of the AddERC20 call, and the tagged outcomes of the
    two collaborators and of the handler itself. */
module Erc20Types {

  newtype uint8 = x: int | 0 <= x < 0x100
  newtype uint64 = x: int | 0 <= x < 0x1_0000_0000_0000_0000
  newtype int64 = x: int | -0x8000_0000_0000_0000 <= x < 0x8000_0000_0000_0000

  const ADDRESS_LENGTH := 20

  /** A chain address: exactly 20 bytes (Go's byte is uint8). */
  type Address = s: seq<uint8> | |s| == ADDRESS_LENGTH witness seq(ADDRESS_LENGTH, _ => 0)

  /** A token's metadata captured at one block height (model.ERC20). The
      address is kept as raw bytes, as the persisted record keeps it. */
  datatype Token = Token(
    blockNumber: uint64,
    address: seq<uint8>,
    code: seq<uint8>,
    name: string,
    decimals: uint8,
    totalSupply: string)

  /** The AddERC20 request: a hex-encoded address and a block height. */
  datatype Request = Request(address: string, blockNumber: uint64)

  /** The AddERC20 response: a projection of the registered token. */
  datatype Response = Response(
    address: string,
    blockNumber: uint64,
    totalSupply: string,
    name: string,
    decimals: int64)

  /** What the chain client answers to GetERC20: the token, the distinguished
      "not found" error, or any other error. */
  datatype ClientResult = Found(token: Token) | NotFound | Failed

  /** What the store answers to InsertERC20: no error, or an error. */
  datatype StoreResult = Inserted | InsertFailed

  /** The handler's result: a response with no error, or one of the two
      sentinel errors with no response. */
  datatype Outcome = Ok(response: Response) | ErrInternal | ErrInvalidAddress

  /** The sentinel errors as values of Go's `error` slot. */
  datatype ServiceError = Internal | InvalidAddress

  datatype Option<T> = None | Some(value: T)

  /** A call the handler makes on one of its collaborators, with its
      arguments, as the mocks record it. */
  datatype Call =
    | GetERC20(address: Address, blockNumber: uint64)
    | InsertERC20(token: Token)
}
