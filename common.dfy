// Small shared vocabulary: optional values, results, HTTP status classes,
// decimal rendering of numbers and the substring test used on error messages.
module Common {

  datatype Option<+T> = None | Some(value: T)

  datatype Result<+T, +E> = Ok(value: T) | Err(error: E)

  /** `Response.ok` of the Fetch API: the status is in the 2xx range. */
  predicate IsOk(status: nat) {
    200 <= status <= 299
  }

  function DigitChar(d: nat): (c: char)
    requires d < 10
    ensures '0' <= c <= '9'
  {
    "0123456789"[d]
  }

  /** How a template literal renders a non-negative integer. */
  function Decimal(n: nat): (s: string)
    ensures 1 <= |s|
    ensures forall i :: 0 <= i < |s| ==> '0' <= s[i] <= '9'
    ensures n < 10 <==> |s| == 1
  {
    if n < 10 then [DigitChar(n)] else Decimal(n / 10) + [DigitChar(n % 10)]
  }

  predicate IsPrefix(p: string, s: string) {
    |p| <= |s| && s[..|p|] == p
  }

  /** `String.prototype.includes`: `sub` occurs somewhere in `s`. */
  predicate Includes(s: string, sub: string)
    decreases |s|
  {
    IsPrefix(sub, s) || (|s| > 0 && Includes(s[1..], sub))
  }

  lemma {:induction false} IncludesPrefixOf(s: string, p: string, rest: string)
    requires s == p + rest
    ensures Includes(s, p)
  {
    assert s[..|p|] == p;
  }

  /** A string that never contains the first character of `sub` does not include `sub`. */
  lemma {:induction false} ExcludesWithoutFirstChar(s: string, sub: string)
    requires |sub| > 0
    requires sub[0] !in s
    ensures !Includes(s, sub)
    decreases |s|
  {
    if |s| > 0 {
      assert !IsPrefix(sub, s) by {
        if |sub| <= |s| {
          assert s[..|sub|][0] == s[0];
        }
      }
      ExcludesWithoutFirstChar(s[1..], sub);
    }
  }
}
