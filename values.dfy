/** JavaScript values as the process manager sees them: message payloads,
    worker identifiers and the key coercion that JavaScript objects apply
    to every property name. */
module JsValues {

  datatype Option<+T> = None | Some(value: T)

  /** A call that either returns a value or throws a JavaScript Error
      carrying the given message. */
  datatype Result<+T> = Ok(value: T) | Err(error: string)

  /** A payload that can cross the IPC channel. Numbers are restricted
      to integers; `Error` is an Error instance with its message. */
  datatype Value =
    | Undefined
    | Null
    | Bool(b: bool)
    | Num(n: int)
    | Str(s: string)
    | Arr(elems: seq<Value>)
    | Obj(props: map<string, Value>)
    | Error(message: string)

  /** `v == null` in JavaScript: true for both null and undefined. */
  predicate IsNullish(v: Value) {
    v.Undefined? || v.Null?
  }

  /** Reading `v.message`: None when the read itself throws (v is null or
      undefined), otherwise the property's value. */
  function MessageOf(v: Value): (r: Option<Value>)
    ensures r.None? <==> IsNullish(v)
    ensures v.Error? ==> r == Some(Str(v.message))
    ensures v.Obj? && "message" !in v.props ==> r == Some(Undefined)
  {
    match v
    case Undefined => None
    case Null => None
    case Error(m) => Some(Str(m))
    case Obj(p) => Some(if "message" in p then p["message"] else Undefined)
    case _ => Some(Undefined)
  }

  /** A worker identifier as a caller supplies it: a process id (a number)
      or any string. */
  datatype Id = NumId(n: int) | StrId(s: string)

  /** The property key JavaScript uses when an Id indexes an object:
      numbers are printed in decimal, strings are used as they are. */
  function Key(id: Id): (k: string)
    ensures id.StrId? ==> k == id.s
    ensures id.NumId? ==> |k| >= 1 && (k[0] == '-' <==> id.n < 0)
  {
    match id
    case NumId(n) => Decimal(n)
    case StrId(s) => s
  }

  function DigitChar(d: int): (c: char)
    requires 0 <= d < 10
    ensures '0' <= c <= '9'
  {
    ('0' as int + d) as char
  }

  /** The decimal digits of n, most significant first, without leading zeros. */
  function NatDigits(n: nat): (s: string)
    ensures |s| >= 1
    ensures n >= 10 <==> |s| >= 2
    ensures forall i :: 0 <= i < |s| ==> '0' <= s[i] <= '9'
    decreases n
  {
    if n < 10 then [DigitChar(n)] else NatDigits(n / 10) + [DigitChar(n % 10)]
  }

  /** `String(n)` for an integer n. */
  function Decimal(n: int): (s: string)
    ensures |s| >= 1
    ensures (s[0] == '-') <==> n < 0
  {
    if n < 0 then "-" + NatDigits(-n) else NatDigits(n)
  }

  /** A numeric id's key is its decimal digits, after a '-' for a negative id. */
  lemma NumKeyDigits(n: int)
    ensures var k := Key(NumId(n));
            forall i :: (if n < 0 then 1 else 0) <= i < |k| ==> '0' <= k[i] <= '9'
  {
    if n < 0 {
      assert Key(NumId(n))[1..] == NatDigits(-n);
    }
  }

  lemma {:induction false} NatDigitsInjective(a: nat, b: nat)
    requires NatDigits(a) == NatDigits(b)
    ensures a == b
    decreases a
  {
    var s := NatDigits(a);
    if a < 10 {
      assert s == [DigitChar(a)];
    } else {
      assert s[|s| - 1] == DigitChar(a % 10) == DigitChar(b % 10);
      assert s[..|s| - 1] == NatDigits(a / 10) == NatDigits(b / 10);
      NatDigitsInjective(a / 10, b / 10);
    }
  }

  /** Distinct process ids give distinct keys, so workers registered under
      their own pids never share a slot. */
  lemma NumKeyInjective(a: int, b: int)
    requires Key(NumId(a)) == Key(NumId(b))
    ensures a == b
  {
    if a < 0 {
      assert Decimal(a)[1..] == NatDigits(-a);
      assert Decimal(b)[1..] == NatDigits(-b);
      NatDigitsInjective(-a, -b);
    } else {
      NatDigitsInjective(a, b);
    }
  }

  /** A numeric id and its decimal string name the same slot. */
  lemma NumAndStringIdsCollide(n: nat)
    ensures Key(NumId(n)) == Key(StrId(NatDigits(n)))
  {
  }
}
