/**
 * JavaScript values and the few built-in string operations the relay and the
 * client rely on: truthiness, `typeof … === 'object'`, property reads and
 * `String.prototype.trim`.
 */
module Js {

  datatype Option<+T> = None | Some(value: T)

  /**
   * A JSON-shaped JavaScript value. Numbers are integers: no code modelled here
   * depends on fractions, NaN or infinities.
   */
  datatype Json =
    | Undefined
    | Null
    | Bool(b: bool)
    | Num(n: int)
    | Str(s: string)
    | Arr(items: seq<Json>)
    | Obj(fields: map<string, Json>)

  /** `!!v`. */
  predicate Truthy(v: Json)
  {
    match v
    case Undefined => false
    case Null => false
    case Bool(b) => b
    case Num(n) => n != 0
    case Str(s) => s != ""
    case Arr(_) => true
    case Obj(_) => true
  }

  /** `typeof v === 'object'`, which holds of null, arrays and plain objects. */
  predicate IsObjectType(v: Json)
  {
    v.Null? || v.Arr? || v.Obj?
  }

  /** Reading a property throws a TypeError exactly on null and undefined. */
  predicate PropertyReadThrows(v: Json)
  {
    v.Null? || v.Undefined?
  }

  /** `v[key]` for the property names read in this model (none of them exists on an array or a primitive). */
  function Get(v: Json, key: string): Json
    requires !PropertyReadThrows(v)
  {
    if v.Obj? && key in v.fields then v.fields[key] else Undefined
  }

  /** The code points `String.prototype.trim` removes: WhiteSpace and LineTerminator. */
  predicate IsWhitespace(c: char)
  {
    var n := c as int;
    n == 0x09 || n == 0x0A || n == 0x0B || n == 0x0C || n == 0x0D || n == 0x20 ||
    n == 0xA0 || n == 0x1680 || (0x2000 <= n <= 0x200A) || n == 0x2028 ||
    n == 0x2029 || n == 0x202F || n == 0x205F || n == 0x3000 || n == 0xFEFF
  }

  predicate AllWhitespace(s: string)
  {
    forall i :: 0 <= i < |s| ==> IsWhitespace(s[i])
  }

  /** Where leading whitespace ends, scanning forward from `i`: everything skipped is whitespace. */
  function LeadingEnd(s: string, i: nat): (n: nat)
    requires i <= |s|
    ensures i <= n <= |s|
    ensures forall k :: i <= k < n ==> IsWhitespace(s[k])
    ensures n < |s| ==> !IsWhitespace(s[n])
    decreases |s| - i
  {
    if i < |s| && IsWhitespace(s[i]) then LeadingEnd(s, i + 1) else i
  }

  /** Where trailing whitespace starts, scanning back from `j` but not below `lo`. */
  function TrailingStart(s: string, lo: nat, j: nat): (n: nat)
    requires lo <= j <= |s|
    ensures lo <= n <= j
    ensures forall k :: n <= k < j ==> IsWhitespace(s[k])
    ensures n > lo ==> !IsWhitespace(s[n - 1])
  {
    if j > lo && IsWhitespace(s[j - 1]) then TrailingStart(s, lo, j - 1) else j
  }

  /**
   * `String.prototype.trim`: `s` with an all-whitespace prefix and an
   * all-whitespace suffix cut off, so that what is left neither starts nor
   * ends with whitespace; empty exactly when `s` is all whitespace, and `s`
   * itself when `s` has no surrounding whitespace.
   */
  function Trim(s: string): (r: string)
    ensures |r| <= |s|
    ensures var i := LeadingEnd(s, 0);
            i + |r| <= |s| && r == s[i..i + |r|] && AllWhitespace(s[..i]) && AllWhitespace(s[i + |r|..])
    ensures r != [] ==> !IsWhitespace(r[0]) && !IsWhitespace(r[|r| - 1])
    ensures r == [] <==> AllWhitespace(s)
    ensures (s == [] || (!IsWhitespace(s[0]) && !IsWhitespace(s[|s| - 1]))) ==> r == s
  {
    var a := LeadingEnd(s, 0);
    var b := TrailingStart(s, a, |s|);
    WhitespaceAround(s, a, b);
    TrimmedPiece(s, a, b);
    assert a + (b - a) == b;
    s[a..b]
  }

  /** The piece between the end of the leading and the start of the trailing whitespace. */
  lemma TrimmedPiece(s: string, a: nat, b: nat)
    requires a <= b <= |s|
    requires forall k :: 0 <= k < a ==> IsWhitespace(s[k])
    requires forall k :: b <= k < |s| ==> IsWhitespace(s[k])
    requires a < |s| ==> !IsWhitespace(s[a])
    requires b > a ==> !IsWhitespace(s[b - 1])
    ensures var r := s[a..b];
            && (r != [] ==> !IsWhitespace(r[0]) && !IsWhitespace(r[|r| - 1]))
            && (r == [] <==> AllWhitespace(s))
            && ((s == [] || (!IsWhitespace(s[0]) && !IsWhitespace(s[|s| - 1]))) ==> r == s)
  {
    var r := s[a..b];
    if r == [] {
      assert a == |s|;
      assert AllWhitespace(s) by {
        forall k | 0 <= k < |s| ensures IsWhitespace(s[k]) {
        }
      }
    } else {
      assert r[0] == s[a] && r[|r| - 1] == s[b - 1];
    }
    if s != [] && !IsWhitespace(s[0]) && !IsWhitespace(s[|s| - 1]) {
      assert a == 0 && b == |s|;
      assert r == s;
    }
  }

  /** Cutting whitespace off both ends of `s` at `a` and `b` leaves `s[a..b]` between two all-whitespace pieces. */
  lemma WhitespaceAround(s: string, a: nat, b: nat)
    requires a <= b <= |s|
    requires forall k :: 0 <= k < a ==> IsWhitespace(s[k])
    requires forall k :: b <= k < |s| ==> IsWhitespace(s[k])
    ensures AllWhitespace(s[..a]) && AllWhitespace(s[b..])
  {
    assert AllWhitespace(s[..a]) by {
      forall k | 0 <= k < a ensures IsWhitespace(s[..a][k]) {
        assert s[..a][k] == s[k];
      }
    }
    assert AllWhitespace(s[b..]) by {
      forall k | 0 <= k < |s| - b ensures IsWhitespace(s[b..][k]) {
        assert s[b..][k] == s[b + k];
      }
    }
  }
}
