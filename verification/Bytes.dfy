/** Bytes, fixed-width integers and the constants of communication/types.h. */
module Bytes {
  type byte = b: int | 0 <= b < 256
  type bytes = seq<byte>

  datatype Option<+T> = None | Some(value: T)

  /** `2^31`: the first length whose top byte the decoder's `int` shift turns negative. */
  const INT_LIMIT: nat := 0x8000_0000
  const WORD32: nat := 0x1_0000_0000
  const WORD64: nat := 0x1_0000_0000_0000_0000

  /** The maximum size of a message (message_queue::CHUNK_SIZE). */
  const CHUNK_SIZE: nat := 4096

  // MSG_TYPE
  const NONE: byte := 0
  const CREATE: byte := 1
  const UPDATE: byte := 2
  const ERASE: byte := 3
  const SYNC: byte := 4
  const AUTH: byte := 5
  const KEEP_ALIVE: byte := 6

  // TLV_TYPE
  const USRN: byte := 0
  const PSWD: byte := 1
  const ITEM: byte := 2
  const END: byte := 3
  const OK: byte := 4
  const ERROR: byte := 5
  const CONTENT: byte := 6

  // ERR_TYPE
  const ERR_NONE: nat := 0
  const ERR_NO_CONTENT: nat := 1
  const ERR_MSG_TYPE_REJECTED: nat := 2
  const ERR_CREATE_NO_ITEM: nat := 101
  const ERR_CREATE_NO_CONTENT: nat := 102
  const ERR_CREATE_ALREADY_EXIST: nat := 103
  const ERR_CREATE_FAILED: nat := 104
  const ERR_CREATE_NO_MATCH: nat := 105
  const ERR_UPDATE_NO_ITEM: nat := 201
  const ERR_UPDATE_NO_CONTENT: nat := 202
  const ERR_UPDATE_NOT_EXIST: nat := 203
  const ERR_UPDATE_ALREADY_UPDATED: nat := 204
  const ERR_UPDATE_FAILED: nat := 205
  const ERR_UPDATE_NO_MATCH: nat := 206
  const ERR_ERASE_NO_ITEM: nat := 301
  const ERR_ERASE_NO_MATCH: nat := 302
  const ERR_SYNC_FAILED: nat := 401
  const ERR_AUTH_NO_USRN: nat := 501
  const ERR_AUTH_NO_PSWD: nat := 502
  const ERR_AUTH_FAILED: nat := 503

  function Last<T>(s: seq<T>): T
    requires s != []
  {
    s[|s| - 1]
  }

  function Front<T>(s: seq<T>): seq<T>
    requires s != []
  {
    s[..|s| - 1]
  }

  /** All the elements of a list of lists, in order. */
  function Flatten<T>(ss: seq<seq<T>>): seq<T> {
    if ss == [] then [] else Flatten(Front(ss)) + Last(ss)
  }

  lemma {:induction false} FlattenConcat<T>(a: seq<seq<T>>, b: seq<seq<T>>)
    ensures Flatten(a + b) == Flatten(a) + Flatten(b)
  {
    if b == [] {
      assert a + b == a;
    } else {
      assert Front(a + b) == a + Front(b);
      FlattenConcat(a, Front(b));
      assert Flatten(a) + (Flatten(Front(b)) + Last(b)) == Flatten(a) + Flatten(Front(b)) + Last(b);
    }
  }

  /** The list is duplicate free. */
  ghost predicate Distinct<T>(s: seq<T>) {
    forall i, j :: 0 <= i < j < |s| ==> s[i] != s[j]
  }
}
