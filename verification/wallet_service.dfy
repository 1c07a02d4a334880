/** WalletService: creating wallets, guarded debits, credits, and the per-wallet spark count. */
module WalletService {
  import opened Common
  import opened Model

  /** The only currency wallets are created in. */
  const EUR := "EUR"

  /** `a` and `b` are the same wallet except, possibly, for the amount. */
  predicate SameExceptAmount(a: Wallet, b: Wallet) {
    a.id == b.id && a.owner == b.owner && a.currency == b.currency
  }

  /** createWallet: a new wallet owned by the registering user, holding 0.00 EUR. */
  function CreateWallet(id: WalletId, owner: UserId): (w: Wallet)
    ensures w.id == id && w.owner == owner && w.currency == EUR
    ensures w.amount.Some? && Balance(w) == 0
  {
    Wallet(id, owner, Some(0), EUR)
  }

  /**
   * reduceAmount: debits `amount` when the balance covers it (the remaining
   * balance may be exactly zero), otherwise fails with DomainException.
   * A null balance cannot be subtracted from.
   */
  function ReduceAmount(w: Wallet, amount: Money): (r: Result<Wallet>)
    ensures r.Ok? <==> w.amount.Some? && amount <= w.amount.value
    ensures w.amount.None? ==> r == Err(NullReference)
    ensures w.amount.Some? && amount > w.amount.value ==> r == Err(Domain)
    ensures r.Ok? ==> SameExceptAmount(r.value, w) && r.value.amount.Some?
    ensures r.Ok? ==> Balance(r.value) == Balance(w) - amount && Balance(r.value) >= 0
  {
    match w.amount
    case None => Err(NullReference)
    case Some(balance) =>
      var remaining := balance - amount;
      if remaining >= 0 then Ok(w.(amount := Some(remaining))) else Err(Domain)
  }

  /** addFundsWithoutUserValidation: adds `amount` unconditionally, reading a null balance as zero. */
  function AddFundsWithoutUserValidation(w: Wallet, amount: Money): (r: Wallet)
    ensures SameExceptAmount(r, w)
    ensures r.amount.Some? && Balance(r) == Balance(w) + amount
  {
    w.(amount := Some(OrZero(w.amount) + amount))
  }

  /** addFunds: a credit that only an ACTIVE user may make. */
  function AddFunds(w: Wallet, amount: Money, userStatus: UserStatus): (r: Result<Wallet>)
    ensures userStatus == UserStatus.Active ==> r == Ok(AddFundsWithoutUserValidation(w, amount))
    ensures userStatus != UserStatus.Active ==> r == Err(AccessDenied)
  {
    if userStatus == UserStatus.Active then Ok(AddFundsWithoutUserValidation(w, amount))
    else Err(AccessDenied)
  }

  /** A debit is undone by crediting the same amount back. */
  lemma DebitThenCreditRestores(w: Wallet, amount: Money)
    requires ReduceAmount(w, amount).Ok?
    ensures AddFundsWithoutUserValidation(ReduceAmount(w, amount).value, amount) == w
  {
  }

  /** Debiting the whole balance succeeds and leaves exactly zero. */
  lemma ExactBalanceDebit(w: Wallet)
    requires w.amount.Some?
    ensures ReduceAmount(w, w.amount.value).Ok?
    ensures ReduceAmount(w, w.amount.value).value.amount == Some(0)
  {
  }

  /** The distinct sparks among `donations`. */
  ghost function SparksOf(donations: seq<Donation>): set<SparkId> {
    set i | 0 <= i < |donations| :: donations[i].spark
  }

  /** getTotalSparkCount: how many distinct sparks the wallet's donations went to. */
  method TotalSparkCount(donations: seq<Donation>) returns (count: nat)
    ensures count == |SparksOf(donations)|
    ensures count <= |donations|
    ensures |donations| == 0 ==> count == 0
  {
    if |donations| == 0 {
      return 0;
    }
    var seen: set<SparkId> := {};
    count := 0;
    for i := 0 to |donations|
      invariant seen == SparksOf(donations[..i])
      invariant count == |seen| && count <= i
    {
      assert donations[..i + 1] == donations[..i] + [donations[i]];
      if donations[i].spark !in seen {
        seen := seen + {donations[i].spark};
        count := count + 1;
      }
      assert SparksOf(donations[..i + 1]) == SparksOf(donations[..i]) + {donations[i].spark} by {
        var prefix := donations[..i + 1];
        forall s | s in SparksOf(prefix)
          ensures s in SparksOf(donations[..i]) + {donations[i].spark}
        {
          var j :| 0 <= j < |prefix| && prefix[j].spark == s;
          if j < i {
            assert donations[..i][j] == prefix[j];
          }
        }
        forall s | s in SparksOf(donations[..i])
          ensures s in SparksOf(prefix)
        {
          var j :| 0 <= j < i && donations[..i][j].spark == s;
          assert prefix[j] == donations[..i][j];
        }
        assert prefix[i] == donations[i];
      }
    }
    assert donations[..|donations|] == donations;
  }
}
