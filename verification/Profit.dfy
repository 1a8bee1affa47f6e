/** The one-pass maximum profit. */
module Profit {
  const INT_MIN: int := -0x8000_0000
  const INT_MAX: int := 0x7fff_ffff

  /** Subtraction on int, which must not overflow. */
  function Minus(a: int, b: int): int
    requires INT_MIN <= a - b <= INT_MAX
  {
    a - b
  }

  /** The largest gain from buying on some day and selling on the same or a later day; 0 without prices. */
  method MaxProfit(prices: seq<int>) returns (profit: int)
    requires forall i, j :: 0 <= i <= j < |prices| ==> prices[j] - prices[i] <= INT_MAX
    ensures prices == [] ==> profit == 0
    ensures forall i, j :: 0 <= i <= j < |prices| ==> prices[j] - prices[i] <= profit
    ensures prices != [] ==> exists i, j :: 0 <= i <= j < |prices| && prices[j] - prices[i] == profit
  {
    if prices == [] {
      return 0;
    }
    var low := prices[0];
    profit := 0;
    ghost var best := 0;
    ghost var buy, sell := 0, 0;
    for k := 1 to |prices|
      invariant 0 <= best < k && low == prices[best]
      invariant forall i :: 0 <= i < k ==> low <= prices[i]
      invariant 0 <= buy <= sell < k && profit == prices[sell] - prices[buy]
      invariant forall i, j :: 0 <= i <= j < k ==> prices[j] - prices[i] <= profit
    {
      if prices[k] < low {
        low := prices[k];
        best := k;
      } else {
        var gain := Minus(prices[k], low);
        if gain > profit {
          profit := gain;
          buy, sell := best, k;
        }
      }
    }
  }
}
