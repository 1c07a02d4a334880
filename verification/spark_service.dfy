/**
 * SparkService: creating and editing sparks, crediting them, cancelling with
 * refunds, completing them, and the list filters of the All Sparks screen.
 */
module SparkService {
  import opened Common
  import opened Model
  import opened Collections
  import opened CommonUtils
  import opened WalletService

  /** The create/edit form of a spark. */
  datatype ManageSparkRequest = ManageSparkRequest(
    title: string,
    description: string,
    goalAmount: Money,
    currentAmount: Option<Money>,
    category: string,
    status: SparkStatus,
    firstPictureUrl: string,
    secondPictureUrl: Option<string>,
    thirdPictureUrl: Option<string>)

  /** The spark shows the request's editable fields: title, description, goal, category, pictures. */
  predicate ShowsRequest(s: Spark, req: ManageSparkRequest) {
    && s.title == req.title
    && s.description == req.description
    && s.goalAmount == req.goalAmount
    && s.category == req.category
    && s.firstPictureUrl == req.firstPictureUrl
    && s.secondPictureUrl == req.secondPictureUrl
    && s.thirdPictureUrl == req.thirdPictureUrl
  }

  /** createSpark: only an ACTIVE user may create; a missing current amount starts at zero. */
  function CreateSpark(id: SparkId, req: ManageSparkRequest, user: User): (r: Result<Spark>)
    ensures user.status != UserStatus.Active ==> r == Err(AccessDenied)
    ensures user.status == UserStatus.Active ==> r.Ok?
    ensures r.Ok? ==> r.value.id == id && r.value.creator == user.id && ShowsRequest(r.value, req)
    ensures r.Ok? ==> r.value.status == req.status
    ensures r.Ok? ==> r.value.currentAmount.Some?
    ensures r.Ok? && req.currentAmount.Some? ==> r.value.currentAmount == req.currentAmount
    ensures r.Ok? && req.currentAmount.None? ==> Raised(r.value) == 0
  {
    if user.status != UserStatus.Active then Err(AccessDenied)
    else
      Ok(Spark(
        id := id,
        creator := user.id,
        title := req.title,
        description := req.description,
        goalAmount := req.goalAmount,
        currentAmount := Some(OrZero(req.currentAmount)),
        firstPictureUrl := req.firstPictureUrl,
        secondPictureUrl := req.secondPictureUrl,
        thirdPictureUrl := req.thirdPictureUrl,
        status := req.status,
        category := req.category))
  }

  /**
   * updateSpark: the user must be ACTIVE (checked first) and the spark ACTIVE;
   * only the editable fields are rewritten.
   */
  function UpdateSpark(req: ManageSparkRequest, spark: Spark, user: User): (r: Result<Spark>)
    ensures user.status != UserStatus.Active ==> r == Err(AccessDenied)
    ensures spark.status != SparkStatus.Active ==> r == Err(AccessDenied)
    ensures r.Ok? <==> user.status == UserStatus.Active && spark.status == SparkStatus.Active
    ensures r.Ok? ==> ShowsRequest(r.value, req)
    ensures r.Ok? ==> r.value.id == spark.id && r.value.creator == spark.creator
    ensures r.Ok? ==> r.value.currentAmount == spark.currentAmount && r.value.status == spark.status
  {
    if user.status != UserStatus.Active then Err(AccessDenied)
    else if spark.status != SparkStatus.Active then Err(AccessDenied)
    else
      Ok(spark.(
        title := req.title,
        description := req.description,
        goalAmount := req.goalAmount,
        category := req.category,
        firstPictureUrl := req.firstPictureUrl,
        secondPictureUrl := req.secondPictureUrl,
        thirdPictureUrl := req.thirdPictureUrl))
  }

  /**
   * Editing a spark right after creating it is the same as creating it from
   * the edited form, keeping the amount and status it was created with; in
   * particular, submitting the creation form again as an edit changes nothing.
   */
  lemma EditAfterCreate(id: SparkId, created: ManageSparkRequest, edit: ManageSparkRequest, user: User)
    requires CreateSpark(id, created, user).Ok? && created.status == SparkStatus.Active
    ensures UpdateSpark(edit, CreateSpark(id, created, user).value, user)
         == CreateSpark(id, edit.(currentAmount := created.currentAmount, status := created.status), user)
    ensures UpdateSpark(created, CreateSpark(id, created, user).value, user) == CreateSpark(id, created, user)
  {
  }

  /** Re-submitting the same edit changes nothing more. */
  lemma UpdateSparkIdempotent(req: ManageSparkRequest, spark: Spark, user: User)
    requires UpdateSpark(req, spark, user).Ok?
    ensures UpdateSpark(req, UpdateSpark(req, spark, user).value, user) == UpdateSpark(req, spark, user)
  {
  }

  /** increaseCurrentAmount: adds `amount` to the raised amount (null read as zero), with no cap at the goal. */
  function IncreaseCurrentAmount(s: Spark, amount: Money): (r: Spark)
    ensures r.currentAmount.Some? && Raised(r) == Raised(s) + amount
    ensures r.(currentAmount := s.currentAmount) == s
  {
    s.(currentAmount := Some(OrZero(s.currentAmount) + amount))
  }

  /** completeSpark: the spark becomes COMPLETED; nothing else about it changes. */
  function CompleteSpark(s: Spark): (r: Spark)
    ensures r.status == SparkStatus.Completed
    ensures r.(status := s.status) == s
  {
    s.(status := SparkStatus.Completed)
  }

  // ---------------------------------------------------------------------------
  // Cancellation with refunds

  /** Every donation names a wallet that exists (otherwise the refund dereferences null or nothing). */
  ghost predicate Refundable(wallets: map<WalletId, Wallet>, ds: seq<Donation>) {
    forall i :: 0 <= i < |ds| ==> ds[i].wallet.Some? && ds[i].wallet.value in wallets
  }

  /**
   * How many donations the refund loop gets through: it stops at the first
   * donation whose wallet is null or not among `keys`.
   */
  function Reached(keys: set<WalletId>, ds: seq<Donation>): (n: nat)
    ensures n <= |ds|
    ensures forall i :: 0 <= i < n ==> ds[i].wallet.Some? && ds[i].wallet.value in keys
    ensures n < |ds| ==> ds[n].wallet.None? || ds[n].wallet.value !in keys
    decreases |ds|
  {
    if |ds| == 0 || ds[0].wallet.None? || ds[0].wallet.value !in keys then 0
    else
      var m := Reached(keys, ds[1..]);
      assert forall i :: 1 <= i < 1 + m ==> ds[i] == ds[1..][i - 1];
      1 + m
  }

  /** Peeling one donation off the front of a wallet's refund total. */
  lemma RefundDueStep(ds: seq<Donation>, k: WalletId)
    requires |ds| > 0
    ensures Sum(DonationsFrom(ds, k))
         == (if ds[0].wallet == Some(k) then ds[0].amount else 0) + Sum(DonationsFrom(ds[1..], k))
  {
    var rest := DonationsFrom(ds[1..], k);
    if ds[0].wallet == Some(k) {
      assert DonationsFrom(ds, k) == [ds[0]] + rest;
      assert ([ds[0]] + rest)[1..] == rest;
    }
  }

  /**
   * The refund loop of cancelSparkAndReturnDonations: each donation's amount
   * is credited back to its own wallet, without a user-status check, and each
   * credit is saved at once. A null wallet throws, and the credits saved
   * before it stay.
   */
  function Refund(wallets: map<WalletId, Wallet>, ds: seq<Donation>): (r: Saved<map<WalletId, Wallet>>)
    ensures r.state.Keys == wallets.Keys
    decreases |ds|
  {
    if |ds| == 0 then Saved(wallets, Pass)
    else
      match ds[0].wallet
      case None => Saved(wallets, Fail(NullReference))
      case Some(w) =>
        if w !in wallets then Saved(wallets, Fail(NotFound))
        else Refund(wallets[w := AddFundsWithoutUserValidation(wallets[w], ds[0].amount)], ds[1..])
  }

  /**
   * The refund completes exactly when every donation's wallet exists;
   * otherwise it throws at the first donation with a null or unknown wallet.
   */
  lemma {:induction false} RefundSucceedsIff(wallets: map<WalletId, Wallet>, ds: seq<Donation>)
    ensures Refund(wallets, ds).outcome.Pass? <==> Refundable(wallets, ds)
    ensures Refund(wallets, ds).outcome.Pass? <==> Reached(wallets.Keys, ds) == |ds|
    ensures var n := Reached(wallets.Keys, ds);
      n < |ds| ==> Refund(wallets, ds).outcome == Fail(if ds[n].wallet.None? then NullReference else NotFound)
    decreases |ds|
  {
    if |ds| > 0 && ds[0].wallet.Some? && ds[0].wallet.value in wallets {
      var w := ds[0].wallet.value;
      var credited := wallets[w := AddFundsWithoutUserValidation(wallets[w], ds[0].amount)];
      assert credited.Keys == wallets.Keys;
      RefundSucceedsIff(credited, ds[1..]);
      var n := Reached(wallets.Keys, ds);
      if n < |ds| {
        assert ds[n] == ds[1..][n - 1];
      }
    }
  }

  /**
   * Each wallet gets back exactly the sum of its own donations among those
   * the loop got through; nothing else about it changes.
   */
  lemma {:induction false} RefundCreditsEachWallet(wallets: map<WalletId, Wallet>, ds: seq<Donation>, k: WalletId)
    requires k in wallets
    ensures SameExceptAmount(Refund(wallets, ds).state[k], wallets[k])
    ensures Balance(Refund(wallets, ds).state[k])
         == Balance(wallets[k]) + Sum(DonationsFrom(ds[..Reached(wallets.Keys, ds)], k))
    decreases |ds|
  {
    if |ds| > 0 && ds[0].wallet.Some? && ds[0].wallet.value in wallets {
      var w := ds[0].wallet.value;
      var credited := wallets[w := AddFundsWithoutUserValidation(wallets[w], ds[0].amount)];
      assert credited.Keys == wallets.Keys;
      RefundCreditsEachWallet(credited, ds[1..], k);
      var n := Reached(wallets.Keys, ds);
      RefundDueStep(ds[..n], k);
      assert ds[..n][1..] == ds[1..][..n - 1];
    } else {
      assert ds[..Reached(wallets.Keys, ds)] == [];
    }
  }

  /** A refund puts back into the wallets, in total, exactly the sum of the donations the loop got through. */
  lemma {:induction false} RefundConservesMoney(wallets: map<WalletId, Wallet>, ds: seq<Donation>)
    ensures TotalBalance(Refund(wallets, ds).state)
         == TotalBalance(wallets) + Sum(ds[..Reached(wallets.Keys, ds)])
    decreases |ds|
  {
    if |ds| > 0 && ds[0].wallet.Some? && ds[0].wallet.value in wallets {
      var w := ds[0].wallet.value;
      var credited := wallets[w := AddFundsWithoutUserValidation(wallets[w], ds[0].amount)];
      assert credited.Keys == wallets.Keys;
      SumByUpdate(wallets, w, AddFundsWithoutUserValidation(wallets[w], ds[0].amount), Balance);
      RefundConservesMoney(credited, ds[1..]);
      var n := Reached(wallets.Keys, ds);
      assert ds[..n][1..] == ds[1..][..n - 1];
    } else {
      assert ds[..Reached(wallets.Keys, ds)] == [];
    }
  }

  /** The refund branch runs when the raised amount is non-zero and the spark has donations. */
  predicate RefundsDue(s: Spark, ds: seq<Donation>) {
    !IsZeroAmount(s.currentAmount) && |ds| != 0
  }

  /**
   * cancelSparkAndReturnDonations: refunds every donation and zeroes the
   * raised amount when something was raised and donated; in every case the
   * spark ends CANCELLED. There is no guard on the spark's current status.
   * The method runs without a transaction: when the refund loop throws, the
   * credits saved so far stay, and the spark is left as it was.
   */
  function CancelSparkAndReturnDonations(st: State, id: SparkId): (r: Saved<State>)
    ensures id !in st.sparks ==> r == Saved(st, Fail(NotFound))
    ensures r.state.users == st.users && r.state.donations == st.donations && r.state.signals == st.signals
    ensures r.state.sparks.Keys == st.sparks.Keys
    ensures forall k :: k in st.sparks && k != id ==> r.state.sparks[k] == st.sparks[k]
    ensures id in st.sparks && RefundsDue(st.sparks[id], DonationsTo(st.donations, id)) ==>
      Refund(st.wallets, DonationsTo(st.donations, id)) == Saved(r.state.wallets, r.outcome)
    ensures id in st.sparks && !RefundsDue(st.sparks[id], DonationsTo(st.donations, id)) ==>
      && r.outcome == Pass
      && r.state.wallets == st.wallets
      && r.state.sparks[id].currentAmount == st.sparks[id].currentAmount
    ensures r.outcome.Pass? ==>
      && id in st.sparks
      && r.state.sparks[id].status == SparkStatus.Cancelled
      && r.state.sparks[id].(status := st.sparks[id].status, currentAmount := st.sparks[id].currentAmount)
         == st.sparks[id]
    ensures r.outcome.Pass? && RefundsDue(st.sparks[id], DonationsTo(st.donations, id)) ==>
      r.state.sparks[id].currentAmount == Some(0)
    ensures r.outcome.Fail? ==> r.state.sparks == st.sparks
  {
    if id !in st.sparks then Saved(st, Fail(NotFound))
    else
      var spark := st.sparks[id];
      var ds := DonationsTo(st.donations, id);
      if !IsZeroAmount(spark.currentAmount) && |ds| != 0 then
        var refund := Refund(st.wallets, ds);
        match refund.outcome
        case Fail(e) => Saved(st.(wallets := refund.state), Fail(e))
        case Pass =>
          var cancelled := spark.(currentAmount := Some(0), status := SparkStatus.Cancelled);
          Saved(st.(wallets := refund.state, sparks := st.sparks[id := cancelled]), Pass)
      else
        Saved(st.(sparks := st.sparks[id := spark.(status := SparkStatus.Cancelled)]), Pass)
  }

  /**
   * When refunds are due, the cancellation goes through exactly when every
   * donation's wallet exists. Either way each wallet is credited with exactly
   * its own donations among those the loop got through: all of them when the
   * cancellation goes through.
   */
  lemma CancelRefundsEachDonor(st: State, id: SparkId, k: WalletId)
    requires id in st.sparks && RefundsDue(st.sparks[id], DonationsTo(st.donations, id))
    requires k in st.wallets
    ensures CancelSparkAndReturnDonations(st, id).outcome.Pass? <==> Refundable(st.wallets, DonationsTo(st.donations, id))
    ensures var ds := DonationsTo(st.donations, id);
      Balance(CancelSparkAndReturnDonations(st, id).state.wallets[k])
      == Balance(st.wallets[k]) + Sum(DonationsFrom(ds[..Reached(st.wallets.Keys, ds)], k))
    ensures CancelSparkAndReturnDonations(st, id).outcome.Pass? ==>
      Balance(CancelSparkAndReturnDonations(st, id).state.wallets[k])
      == Balance(st.wallets[k]) + Sum(DonationsFrom(DonationsTo(st.donations, id), k))
  {
    var ds := DonationsTo(st.donations, id);
    RefundSucceedsIff(st.wallets, ds);
    RefundCreditsEachWallet(st.wallets, ds, k);
    assert ds[..|ds|] == ds;
  }

  /** A cancellation that goes through moves exactly the sum of the spark's donations back into the wallets. */
  lemma CancelRefundsDonatedMoney(st: State, id: SparkId)
    requires CancelSparkAndReturnDonations(st, id).outcome.Pass?
    requires RefundsDue(st.sparks[id], DonationsTo(st.donations, id))
    ensures TotalBalance(CancelSparkAndReturnDonations(st, id).state.wallets)
         == TotalBalance(st.wallets) + Sum(DonationsTo(st.donations, id))
  {
    var ds := DonationsTo(st.donations, id);
    RefundSucceedsIff(st.wallets, ds);
    RefundConservesMoney(st.wallets, ds);
    assert ds[..|ds|] == ds;
  }

  /**
   * A cancellation keeps the ledger sound whether or not the refund loop
   * completes: refunds only ever add money to wallets.
   */
  lemma CancelKeepsLedgerSound(st: State, id: SparkId)
    requires LedgerSound(st)
    ensures LedgerSound(CancelSparkAndReturnDonations(st, id).state)
  {
    var st' := CancelSparkAndReturnDonations(st, id).state;
    if id in st.sparks && RefundsDue(st.sparks[id], DonationsTo(st.donations, id)) {
      var ds := DonationsTo(st.donations, id);
      var reached := ds[..Reached(st.wallets.Keys, ds)];
      forall k | k in st'.wallets ensures Balance(st'.wallets[k]) >= 0 {
        CancelRefundsEachDonor(st, id, k);
        assert forall d :: d in DonationsFrom(reached, k) ==> d in reached && d in ds;
        SumNonNegative(DonationsFrom(reached, k));
      }
    }
  }

  /**
   * A failed cancellation leaves the spark as it was, so running it again
   * fails at the same donation and credits every wallet a second time with
   * what the first attempt already gave it.
   */
  lemma CancelRetryRefundsAgain(st: State, id: SparkId, k: WalletId)
    requires k in st.wallets
    requires CancelSparkAndReturnDonations(st, id).outcome.Fail?
    ensures var once := CancelSparkAndReturnDonations(st, id);
      var twice := CancelSparkAndReturnDonations(once.state, id);
      && twice.outcome == once.outcome
      && Balance(twice.state.wallets[k]) - Balance(once.state.wallets[k])
         == Balance(once.state.wallets[k]) - Balance(st.wallets[k])
  {
    var once := CancelSparkAndReturnDonations(st, id);
    if id in st.sparks {
      var ds := DonationsTo(st.donations, id);
      assert once.state.sparks == st.sparks && once.state.donations == st.donations;
      assert once.state.wallets.Keys == st.wallets.Keys;
      RefundSucceedsIff(st.wallets, ds);
      RefundSucceedsIff(once.state.wallets, ds);
      CancelRefundsEachDonor(st, id, k);
      CancelRefundsEachDonor(once.state, id, k);
    }
  }

  /**
   * After a completed cancellation, findAllSparksWithDonations still lists the
   * spark exactly when it had no donations but a positive starting amount,
   * which the cancellation does not zero.
   */
  lemma CancelLeavesFundedIff(st: State, id: SparkId)
    requires CancelSparkAndReturnDonations(st, id).outcome.Pass?
    ensures id in SparksWithDonations(CancelSparkAndReturnDonations(st, id).state.sparks)
        <==> DonationsTo(st.donations, id) == [] && Raised(st.sparks[id]) > 0
  {
  }

  // ---------------------------------------------------------------------------
  // List filters

  /** The condition under which filterSparksByOwner keeps a spark, for one ownership value. */
  predicate OwnedAs(s: Spark, user: User, log: seq<Donation>, ownership: Option<string>) {
    if ownership == Some("MY_SPARKS") then s.creator == user.id
    else if ownership == Some("SPARKS_I_DONATE_TO") then
      exists d :: d in DonationsTo(log, s.id) && (d.wallet.None? || d.wallet == user.wallet)
    else true
  }

  /**
   * filterSparksByOwner: "MY_SPARKS" keeps the user's own sparks,
   * "SPARKS_I_DONATE_TO" keeps sparks with a donation from the user's wallet
   * or with no wallet; any other value keeps the list as it is.
   */
  function FilterSparksByOwner(user: User, sparks: seq<Spark>, ownership: Option<string>, log: seq<Donation>)
    : (r: seq<Spark>)
    ensures IsSubsequence(r, sparks)
    ensures forall s :: s in r <==> s in sparks && OwnedAs(s, user, log, ownership)
    ensures ownership != Some("MY_SPARKS") && ownership != Some("SPARKS_I_DONATE_TO") ==> r == sparks
  {
    if ownership == Some("MY_SPARKS") then
      Filter(sparks, (s: Spark) => s.creator == user.id)
    else if ownership == Some("SPARKS_I_DONATE_TO") then
      Filter(sparks, (s: Spark) => OwnedAs(s, user, log, ownership))
    else
      SubsequenceReflexive(sparks);
      sparks
  }

  /** Whether getAllSparks lists spark `s` for the given filter strings. */
  predicate Listed(s: Spark, user: User, log: seq<Donation>,
                   status: Option<string>, category: Option<string>, ownership: Option<string>)
  {
    if status.None? && category.None? && ownership.None? then s.status == SparkStatus.Active
    else
      && status == Some(s.status.Name())
      && (category == Some("ALL") || category == Some(s.category))
      && (ownership == Some("ALL_SPARKS") || OwnedAs(s, user, log, ownership))
  }

  /**
   * getAllSparks over `ordered`, the sparks newest first. With no filter at all
   * it lists the ACTIVE sparks; otherwise status must match, category must
   * match unless "ALL", and ownership applies unless "ALL_SPARKS".
   */
  function GetAllSparks(ordered: seq<Spark>, log: seq<Donation>, user: User,
                        status: Option<string>, category: Option<string>, ownership: Option<string>)
    : (r: seq<Spark>)
    ensures IsSubsequence(r, ordered)
    ensures forall s :: s in r <==> s in ordered && Listed(s, user, log, status, category, ownership)
  {
    if AreAllNull([status, category, ownership]) then
      assert status.None? && category.None? && ownership.None? by {
        assert [status, category, ownership][0] == status;
        assert [status, category, ownership][1] == category;
        assert [status, category, ownership][2] == ownership;
      }
      Filter(ordered, (s: Spark) => s.status == SparkStatus.Active)
    else
      var byStatus := Filter(ordered, (s: Spark) => Some(s.status.Name()) == status);
      var byCategory :=
        if category != Some("ALL") then Filter(byStatus, (s: Spark) => Some(s.category) == category)
        else (SubsequenceReflexive(byStatus); byStatus);
      SubsequenceTransitive(byCategory, byStatus, ordered);
      var r := if ownership != Some("ALL_SPARKS") then FilterSparksByOwner(user, byCategory, ownership, log)
               else (SubsequenceReflexive(byCategory); byCategory);
      SubsequenceTransitive(r, byCategory, ordered);
      r
  }

  /**
   * findAllSparksWithDonations: the sparks whose stored amount is above zero
   * (`currentAmount > 0` in the query, which a null amount never satisfies).
   */
  function SparksWithDonations(sparks: map<SparkId, Spark>): (r: set<SparkId>)
    ensures forall k :: k in r <==> k in sparks && Raised(sparks[k]) > 0
  {
    set k | k in sparks && sparks[k].currentAmount.Some? && sparks[k].currentAmount.value > 0
  }
}
