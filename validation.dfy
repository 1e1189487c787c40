/**
 * The length checks the zod schemas chain on a string field. zod runs every
 * check of a field and reports one issue per failing check, in order; the
 * field is accepted when there is none.
 */
module Validation {

  /** `.min(n, message)` or `.max(n, message)` on a string. */
  datatype Check = MinLength(n: nat, message: string) | MaxLength(n: nat, message: string)

  predicate Passes(s: string, c: Check) {
    match c
    case MinLength(n, _) => |s| >= n
    case MaxLength(n, _) => |s| <= n
  }

  /** The issues the checks report for `s`, one per failing check, in order. */
  function Issues(s: string, checks: seq<Check>): (issues: seq<string>)
    ensures |issues| <= |checks|
    ensures issues == [] <==> forall i :: 0 <= i < |checks| ==> Passes(s, checks[i])
  {
    if checks == [] then []
    else
      var rest := Issues(s, checks[1..]);
      assert forall i :: 1 <= i < |checks| ==> checks[i] == checks[1..][i - 1];
      if Passes(s, checks[0]) then rest else [checks[0].message] + rest
  }

  /** Each reported issue is the message of a check that fails. */
  lemma {:induction false} IssueMessages(s: string, checks: seq<Check>)
    ensures forall m :: m in Issues(s, checks) ==> exists i :: 0 <= i < |checks| && !Passes(s, checks[i]) && checks[i].message == m
  {
    if checks != [] {
      IssueMessages(s, checks[1..]);
      forall m | m in Issues(s, checks)
        ensures exists i :: 0 <= i < |checks| && !Passes(s, checks[i]) && checks[i].message == m
      {
        if m in Issues(s, checks[1..]) {
          var j :| 0 <= j < |checks[1..]| && !Passes(s, checks[1..][j]) && checks[1..][j].message == m;
          assert checks[j + 1] == checks[1..][j];
        }
      }
    }
  }

  /** The three checks of a required field of length between `lo` and `hi`. */
  function Bounded(lo: nat, hi: nat, required: string, tooShort: string, tooLong: string): seq<Check> {
    [MinLength(1, required), MinLength(lo, tooShort), MaxLength(hi, tooLong)]
  }

  /** A bounded field with `lo >= 1` accepts exactly the lengths from `lo` to `hi`. */
  lemma BoundedAccepts(s: string, lo: nat, hi: nat, required: string, tooShort: string, tooLong: string)
    requires lo >= 1
    ensures Issues(s, Bounded(lo, hi, required, tooShort, tooLong)) == [] <==> lo <= |s| <= hi
  {
    var checks := Bounded(lo, hi, required, tooShort, tooLong);
    assert Passes(s, checks[1]) <==> |s| >= lo;
    assert Passes(s, checks[2]) <==> |s| <= hi;
  }

  /** `.min(1)`, `.min(lo)` and `.max(hi)`, with any messages. */
  predicate LengthChain(checks: seq<Check>, lo: nat, hi: nat) {
    |checks| == 3 &&
    checks[0].MinLength? && checks[0].n == 1 &&
    checks[1].MinLength? && checks[1].n == lo &&
    checks[2].MaxLength? && checks[2].n == hi
  }

  /** Such a chain with `lo >= 1` accepts exactly the lengths from `lo` to `hi`. */
  lemma LengthChecksAccept(s: string, checks: seq<Check>, lo: nat, hi: nat)
    requires lo >= 1 && LengthChain(checks, lo, hi)
    ensures Issues(s, checks) == [] <==> lo <= |s| <= hi
  {
    assert Passes(s, checks[0]) <==> |s| >= 1;
    assert Passes(s, checks[1]) <==> |s| >= lo;
    assert Passes(s, checks[2]) <==> |s| <= hi;
  }

  /** The empty string fails both minimum checks: it reports two issues. */
  lemma EmptyReportsTwice(lo: nat, hi: nat, required: string, tooShort: string, tooLong: string)
    requires lo >= 1
    ensures Issues("", Bounded(lo, hi, required, tooShort, tooLong)) == [required, tooShort]
  {
    var checks := Bounded(lo, hi, required, tooShort, tooLong);
    assert checks[1..] == [MinLength(lo, tooShort), MaxLength(hi, tooLong)];
    assert checks[1..][1..] == [MaxLength(hi, tooLong)];
    assert checks[1..][1..][1..] == [];
  }

  /** `.min(1, required)` followed by one more test of the string (a format or `.email()`). */
  function RequiredAnd(s: string, required: string, test: bool, invalid: string): (issues: seq<string>)
    ensures issues == [] <==> s != "" && test
  {
    Issues(s, [MinLength(1, required)]) + (if test then [] else [invalid])
  }

  /** A character `\d` matches: an ASCII digit. */
  predicate IsDigit(c: char) {
    '0' <= c <= '9'
  }

  predicate AllDigits(s: string) {
    forall i :: 0 <= i < |s| ==> IsDigit(s[i])
  }
}
