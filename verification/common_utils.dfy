/** The null/emptiness helpers of the application's CommonUtils class. */
module CommonUtils {
  import opened Common
  import opened Model

  /** areAllNull: every argument of the varargs call is null. */
  function AreAllNull<T>(values: seq<Option<T>>): (r: bool)
    ensures r <==> forall i :: 0 <= i < |values| ==> values[i].None?
  {
    |values| == 0 || (values[0].None? && AreAllNull(values[1..]))
  }

  /** isZeroAmount: null counts as zero; otherwise the numeric value is compared with zero. */
  function IsZeroAmount(amount: Option<Money>): (r: bool)
    ensures r <==> OrZero(amount) == 0
  {
    amount.None? || amount.value == 0
  }

  /** isEmpty: null or the empty string. */
  function IsEmpty(text: Option<string>): (r: bool)
    ensures r <==> text == None || text == Some("")
  {
    match text
    case None => true
    case Some(s) => |s| == 0
  }

  /** isNotEmpty: a non-null, non-empty string. */
  function IsNotEmpty(text: Option<string>): (r: bool)
    ensures r <==> text.Some? && |text.value| > 0
  {
    text.Some? && |text.value| != 0
  }

  /** isNotEmpty is written independently of isEmpty, yet is exactly its negation. */
  lemma NotEmptyIsNegationOfEmpty(text: Option<string>)
    ensures IsNotEmpty(text) == !IsEmpty(text)
  {
    if text.Some? && |text.value| == 0 {
      assert text.value == "";
    }
  }
}
