/** Values shared by every part of the arbitrage backend: the optional and
    failure-carrying wrappers, the error kinds the code throws, and the two
    enumerations stored in the database (venue and trader mode). */
module Common {

  datatype Option<+T> = None | Some(value: T) {
    /** The value, or `default` when absent (the `??` operator). */
    function GetOr(default: T): T {
      match this
      case Some(v) => v
      case None => default
    }
  }

  /** The exceptions the core throws, one constructor per kind. */
  datatype Error =
    | DivisionByZero                              // BigInt division by 0n (RangeError)
    | TradingPairNotFound(exchange: Exchange)     // onModuleInit: no pair on that venue
    | TokenMetadataNotFound                       // a token row is missing
    | InvalidPrice                                // parsed price not finite or not positive
    | NullLogger                                  // a call through a logger never assigned (TypeError)
    | NotAFunction                                // a call of a method the object lacks (TypeError)

  datatype Result<+T> = Ok(value: T) | Err(error: Error)

  predicate IsHexDigit(c: char) {
    '0' <= c <= '9' || 'a' <= c <= 'f' || 'A' <= c <= 'F'
  }

  /** An EVM address in the canonical form the code compares: "0x" followed by
      40 hexadecimal digits. Checksumming is not modelled; two addresses are
      the same account iff the strings are equal. */
  predicate IsAddress(s: string) {
    |s| == 42 && s[0] == '0' && s[1] == 'x' && forall i | 2 <= i < 42 :: IsHexDigit(s[i])
  }

  type Address = s: string | IsAddress(s)
    witness "0x0000000000000000000000000000000000000000"

  predicate AllHex(s: string) {
    forall i | 0 <= i < |s| :: IsHexDigit(s[i])
  }

  /** An address written as "0x" and four groups of ten hexadecimal digits. */
  lemma {:induction false} HexAddress(a: string, b: string, c: string, d: string)
    requires |a| == |b| == |c| == |d| == 10
    requires AllHex(a) && AllHex(b) && AllHex(c) && AllHex(d)
    ensures IsAddress("0x" + a + b + c + d)
  {
    var s := "0x" + a + b + c + d;
    forall i | 2 <= i < 42 ensures IsHexDigit(s[i]) {
      if i < 12 { assert s[i] == a[i - 2]; }
      else if i < 22 { assert s[i] == b[i - 12]; }
      else if i < 32 { assert s[i] == c[i - 22]; }
      else { assert s[i] == d[i - 32]; }
    }
  }

  /** The venue enumeration of the database schema. */
  datatype Exchange = UniswapV3 | PancakeV3

  /** How a trader obtained its prices (the schema's QueryType). */
  datatype QueryType = Polling | Subscription
}
