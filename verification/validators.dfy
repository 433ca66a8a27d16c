/**
 * Input validators that gate a trading intent before any order is built
 * (utils/validators.py). All three are total predicates.
 */
module Validators {

  /** The split-count ceiling of the two order types that have one. */
  function SplitCap(orderType: string): (cap: nat)
    requires orderType == "limit" || orderType == "market"
  {
    if orderType == "limit" then 100 else 30
  }

  /** validate_splits: a limit order may be split at most 100 ways, a market order at most 30;
      any other order type is accepted whatever the count. */
  function ValidateSplits(orderType: string, splitCount: int): (ok: bool)
    ensures (orderType == "limit" || orderType == "market") ==> (ok <==> splitCount <= SplitCap(orderType))
    ensures orderType != "limit" && orderType != "market" ==> ok
  {
    if orderType == "limit" && splitCount > 100 then false
    else if orderType == "market" && splitCount > 30 then false
    else true
  }

  lemma SplitTestVectors()
    ensures ValidateSplits("limit", 100) && !ValidateSplits("limit", 101)
    ensures ValidateSplits("market", 30) && !ValidateSplits("market", 31)
  {
  }

  /** A take-profit ladder is well formed when every level is positive and the levels
      strictly ascend. */
  ghost predicate AscendingPositive(s: seq<real>) {
    && (forall i :: 0 <= i < |s| ==> s[i] > 0.0)
    && (forall i, j :: 0 <= i < j < |s| ==> s[i] < s[j])
  }

  /** The left-to-right scan of validate_tp_values, carrying the previous level `last`
      and rejecting at the first level that is non-positive or not above `last`. */
  function ScanTps(last: real, s: seq<real>): bool
    decreases |s|
  {
    if |s| == 0 then true
    else if s[0] <= 0.0 || s[0] <= last then false
    else ScanTps(s[0], s[1..])
  }

  /** The scan accepts exactly the ascending positive ladders whose first level exceeds `last`. */
  lemma {:induction false} ScanTpsCorrect(last: real, s: seq<real>)
    ensures ScanTps(last, s) <==> AscendingPositive(s) && (|s| > 0 ==> s[0] > last)
    decreases |s|
  {
    if |s| > 0 && s[0] > 0.0 && s[0] > last {
      ScanTpsCorrect(s[0], s[1..]);
      if AscendingPositive(s[1..]) && (|s[1..]| > 0 ==> s[1..][0] > s[0]) {
        forall i, j | 0 <= i < j < |s| ensures s[i] < s[j] {
          if i > 0 {
            assert s[i] == s[1..][i - 1] && s[j] == s[1..][j - 1];
          } else if j > 1 {
            assert s[1] < s[j] by { assert s[1..][0] < s[1..][j - 1]; }
          }
        }
        forall i | 0 <= i < |s| ensures s[i] > 0.0 {
          if i > 0 { assert s[i] == s[1..][i - 1]; }
        }
      }
      if AscendingPositive(s) {
        forall i, j | 0 <= i < j < |s[1..]| ensures s[1..][i] < s[1..][j] {
          assert s[1..][i] == s[i + 1] && s[1..][j] == s[j + 1];
        }
        if |s[1..]| > 0 { assert s[0] < s[1]; }
      }
    }
  }

  /** validate_tp_values: true exactly for strictly ascending, all-positive ladders
      (so the empty ladder is valid). */
  function ValidateTpValues(tps: seq<real>): (ok: bool)
    ensures ok <==> AscendingPositive(tps)
  {
    ScanTpsCorrect(0.0, tps);
    ScanTps(0.0, tps)
  }

  lemma TpTestVectors()
    ensures ValidateTpValues([])
    ensures ValidateTpValues([1.0, 2.0, 3.0])
    ensures !ValidateTpValues([3.0, 2.0, 1.0])
    ensures !ValidateTpValues([1.0, 1.0, 2.0])
    ensures !ValidateTpValues([-1.0, 2.0, 3.0])
  {
    assert !ScanTps(0.0, [3.0, 2.0, 1.0]) by { assert [3.0, 2.0, 1.0][1..] == [2.0, 1.0]; }
    assert !ScanTps(0.0, [1.0, 1.0, 2.0]) by { assert [1.0, 1.0, 2.0][1..] == [1.0, 2.0]; }
    assert ScanTps(0.0, [1.0, 2.0, 3.0]) by {
      assert [1.0, 2.0, 3.0][1..] == [2.0, 3.0];
      assert [2.0, 3.0][1..] == [3.0];
      assert [3.0][1..] == [];
    }
  }

  /** Because the scan rejects early, cutting a valid ladder short keeps it valid. */
  lemma TpPrefixValid(tps: seq<real>, n: nat)
    requires n <= |tps|
    ensures ValidateTpValues(tps) ==> ValidateTpValues(tps[..n])
  {
  }

  /** validate_sl_value: a stop-loss is valid exactly when it is positive, which is exactly
      when the one-level ladder made of it is valid. */
  function ValidateSlValue(sl: real): (ok: bool)
    ensures ok <==> sl > 0.0
    ensures ok <==> ValidateTpValues([sl])
  {
    sl > 0.0
  }

  lemma SlTestVectors()
    ensures ValidateSlValue(1.0) && !ValidateSlValue(0.0) && !ValidateSlValue(-5.0)
  {
  }
}
