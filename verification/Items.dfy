/** Order lines and how much of each product they name. */
module Items {

  datatype Item = Item(productId: int, quantity: int)

  /** The quantity of one product in a list of order lines; a product may be listed repeatedly. */
  function QuantityOf(items: seq<Item>, p: int): int {
    if items == [] then 0
    else
      var last := items[|items| - 1];
      QuantityOf(items[..|items| - 1], p) + if last.productId == p then last.quantity else 0
  }

  lemma {:induction false} QuantityOfConcat(a: seq<Item>, b: seq<Item>, p: int)
    ensures QuantityOf(a + b, p) == QuantityOf(a, p) + QuantityOf(b, p)
  {
    if b == [] {
      assert a + b == a;
    } else {
      var n := |b| - 1;
      QuantityOfConcat(a, b[..n], p);
      assert (a + b)[..|a| + n] == a + b[..n];
    }
  }

  /** Splitting a stretch of lines splits its quantity. */
  lemma QuantityOfSplit(items: seq<Item>, i: nat, j: nat, k: nat, p: int)
    requires i <= j <= k <= |items|
    ensures QuantityOf(items[i..k], p) == QuantityOf(items[i..j], p) + QuantityOf(items[j..k], p)
  {
    assert items[i..k] == items[i..j] + items[j..k];
    QuantityOfConcat(items[i..j], items[j..k], p);
  }

  lemma {:induction false} QuantityOfNonNegative(items: seq<Item>, p: int)
    requires forall i :: 0 <= i < |items| ==> items[i].quantity >= 0
    ensures QuantityOf(items, p) >= 0
  {
    if items != [] {
      QuantityOfNonNegative(items[..|items| - 1], p);
    }
  }

  /** A line with a positive quantity shows in its product's total. */
  lemma {:induction false} QuantityOfPositive(items: seq<Item>, k: nat)
    requires k < |items| && items[k].quantity > 0
    requires forall i :: 0 <= i < |items| ==> items[i].quantity >= 0
    ensures QuantityOf(items, items[k].productId) > 0
  {
    var n := |items| - 1;
    var p := items[k].productId;
    if k == n {
      QuantityOfNonNegative(items[..n], p);
    } else {
      QuantityOfPositive(items[..n], k);
    }
  }
}
