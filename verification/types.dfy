/** Value types shared by the key server: byte strings, the identifiers it is
    keyed by, the fixed-width shares it stores, and the error kinds it reports. */
module Types {

  type Byte = bv8
  type Bytes = seq<Byte>

  /** Width in bytes of a block key server half. */
  const BlockServerHalfWidth: nat := 32

  /** Width in bytes of a TLF (top-level folder) key server half. */
  const TLFServerHalfWidth: nat := 32

  type BlockHalfBytes = s: Bytes | |s| == BlockServerHalfWidth
    witness seq(BlockServerHalfWidth, _ => 0)

  type TLFHalfBytes = s: Bytes | |s| == TLFServerHalfWidth
    witness seq(TLFServerHalfWidth, _ => 0)

  /** Identifier of one immutable content block; its bytes are used as a storage key. */
  datatype BlockID = BlockID(bytes: Bytes)

  /** Identifier of a top-level folder. */
  datatype DirID = DirID(bytes: Bytes)

  /** Generation counter of a folder's key material. */
  type KeyGen = int

  /** A device's public encryption key. */
  datatype CryptPublicKey = CryptPublicKey(bytes: Bytes)

  /** The server's share of a block's symmetric key. */
  datatype BlockCryptKeyServerHalf = BlockCryptKeyServerHalf(serverHalf: BlockHalfBytes)

  /** The server's share of a folder key, for one (folder, generation, device). */
  datatype TLFCryptKeyServerHalf = TLFCryptKeyServerHalf(serverHalf: TLFHalfBytes)

  /** A user identifier. */
  type UID = string

  /** Width in bytes of a MAC public key. */
  const MacPublicKeyWidth: nat := 32

  /** A MAC public key. */
  datatype MacPublicKey = MacPublicKey(key: Bytes)

  /** The zero value of a MAC public key: all of its bytes are zero. */
  function ZeroMacPublicKey(): (k: MacPublicKey)
    ensures |k.key| == MacPublicKeyWidth
    ensures forall i :: 0 <= i < |k.key| ==> k.key[i] == 0
  {
    MacPublicKey(seq(MacPublicKeyWidth, _ => 0))
  }

  /** The error the codec reports when it cannot serialise a value. */
  datatype CodecError = CodecError(reason: string)

  /** Error kinds the key server can return. */
  datatype KeyError =
    | NotFound
    | LengthMismatch(expected: nat, got: nat)
    | EncodingError(cause: CodecError)

  datatype Option<+T> = None | Some(value: T)

  /** A value or the error returned instead of it. */
  datatype Result<+T> = Ok(value: T) | Err(error: KeyError)

  /** The error return of an operation that produces no value. */
  datatype Outcome = Pass | Fail(error: KeyError)
}
