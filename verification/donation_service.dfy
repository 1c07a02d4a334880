/**
 * DonationService: the donation recorder (wallet debit, spark credit and
 * donation record as one unit) and the read-side donation statistics.
 */
module DonationService {
  import opened Common
  import opened Model
  import opened Collections
  import opened WalletService
  import opened SparkService

  /**
   * The donation form; its amount is validated to be at least one euro. The
   * message may be left null by the form, but the donation record's message
   * column is not nullable.
   */
  datatype DonationRequest = DonationRequest(amount: Money, message: Option<string>)

  /** validateDonation: the user must be ACTIVE (checked first), then the spark must be ACTIVE. */
  function ValidateDonation(user: User, spark: Spark): (r: Outcome)
    ensures r == Pass <==> user.status == UserStatus.Active && spark.status == SparkStatus.Active
    ensures user.status != UserStatus.Active ==> r == Fail(AccessDenied)
    ensures r.Fail? ==> r.error == AccessDenied
  {
    if user.status != UserStatus.Active then Fail(AccessDenied)
    else if spark.status != SparkStatus.Active then Fail(AccessDenied)
    else Pass
  }

  /** Everything addDonationToSpark needs to succeed: both parties ACTIVE and a wallet that covers the amount. */
  ghost predicate CanDonate(st: State, userId: UserId, sparkId: SparkId, amount: Money) {
    && userId in st.users && sparkId in st.sparks
    && st.users[userId].status == UserStatus.Active
    && st.sparks[sparkId].status == SparkStatus.Active
    && st.users[userId].wallet.Some?
    && st.users[userId].wallet.value in st.wallets
    && st.wallets[st.users[userId].wallet.value].amount.Some?
    && amount <= st.wallets[st.users[userId].wallet.value].amount.value
  }

  /**
   * addDonationToSpark: validate, debit the user's wallet, credit the spark
   * and record the donation, newest first. The call is one transaction: any
   * failure, including the insert of a donation with a null message that the
   * database rejects, returns no state, so nothing changes.
   */
  function AddDonationToSpark(st: State, userId: UserId, sparkId: SparkId, req: DonationRequest)
    : (r: Result<State>)
    requires req.amount >= OneEuro
    ensures r.Ok? <==> CanDonate(st, userId, sparkId, req.amount) && req.message.Some?
    ensures userId in st.users && sparkId in st.sparks && st.users[userId].status != UserStatus.Active
            ==> r == Err(AccessDenied)
    ensures userId in st.users && sparkId in st.sparks && st.sparks[sparkId].status != SparkStatus.Active
            ==> r == Err(AccessDenied)
    ensures userId in st.users && sparkId in st.sparks
            && st.users[userId].status == UserStatus.Active && st.sparks[sparkId].status == SparkStatus.Active
            && st.users[userId].wallet.Some? && st.users[userId].wallet.value in st.wallets
            && st.wallets[st.users[userId].wallet.value].amount.Some?
            && req.amount > st.wallets[st.users[userId].wallet.value].amount.value
            ==> r == Err(Domain)
    ensures CanDonate(st, userId, sparkId, req.amount) && req.message.None? ==> r == Err(Constraint)
    ensures r.Ok? ==>
      var w := st.users[userId].wallet.value;
      && r.value.users == st.users && r.value.signals == st.signals
      && r.value.donations == [Donation(req.amount, req.message.value, sparkId, Some(w))] + st.donations
      && r.value.wallets.Keys == st.wallets.Keys && r.value.sparks.Keys == st.sparks.Keys
      && Balance(r.value.wallets[w]) == Balance(st.wallets[w]) - req.amount
      && SameExceptAmount(r.value.wallets[w], st.wallets[w])
      && Raised(r.value.sparks[sparkId]) == Raised(st.sparks[sparkId]) + req.amount
      && r.value.sparks[sparkId].(currentAmount := st.sparks[sparkId].currentAmount) == st.sparks[sparkId]
      && (forall k :: k in st.wallets && k != w ==> r.value.wallets[k] == st.wallets[k])
      && (forall k :: k in st.sparks && k != sparkId ==> r.value.sparks[k] == st.sparks[k])
  {
    if userId !in st.users || sparkId !in st.sparks then Err(NotFound)
    else
      var user := st.users[userId];
      var spark := st.sparks[sparkId];
      match ValidateDonation(user, spark)
      case Fail(e) => Err(e)
      case Pass =>
        match user.wallet
        case None => Err(NullReference)
        case Some(w) =>
          if w !in st.wallets then Err(NotFound)
          else
            match ReduceAmount(st.wallets[w], req.amount)
            case Err(e) => Err(e)
            case Ok(debited) =>
              match req.message
              case None => Err(Constraint)
              case Some(message) =>
                var donation := Donation(req.amount, message, sparkId, Some(w));
                Ok(st.(
                  wallets := st.wallets[w := debited],
                  sparks := st.sparks[sparkId := IncreaseCurrentAmount(spark, req.amount)],
                  donations := [donation] + st.donations))
  }

  /** Conservation: a donation moves money from the wallets to the sparks with no net change. */
  lemma DonationConservesMoney(st: State, userId: UserId, sparkId: SparkId, req: DonationRequest)
    requires req.amount >= OneEuro
    requires AddDonationToSpark(st, userId, sparkId, req).Ok?
    ensures var st' := AddDonationToSpark(st, userId, sparkId, req).value;
      TotalBalance(st'.wallets) + TotalRaised(st'.sparks) == TotalBalance(st.wallets) + TotalRaised(st.sparks)
    ensures var st' := AddDonationToSpark(st, userId, sparkId, req).value;
      TotalBalance(st'.wallets) == TotalBalance(st.wallets) - req.amount
  {
    var st' := AddDonationToSpark(st, userId, sparkId, req).value;
    var w := st.users[userId].wallet.value;
    assert st'.wallets == st.wallets[w := st'.wallets[w]];
    assert st'.sparks == st.sparks[sparkId := st'.sparks[sparkId]];
    SumByUpdate(st.wallets, w, st'.wallets[w], Balance);
    SumByUpdate(st.sparks, sparkId, st'.sparks[sparkId], Raised);
  }

  /** A donation keeps the ledger sound: the debit never overdraws and the recorded amount is at least one euro. */
  lemma DonationKeepsLedgerSound(st: State, userId: UserId, sparkId: SparkId, req: DonationRequest)
    requires req.amount >= OneEuro
    requires LedgerSound(st)
    requires AddDonationToSpark(st, userId, sparkId, req).Ok?
    ensures LedgerSound(AddDonationToSpark(st, userId, sparkId, req).value)
  {
    var st' := AddDonationToSpark(st, userId, sparkId, req).value;
    assert forall d :: d in st'.donations ==> d in st.donations || d.amount == req.amount;
  }

  /** Exactly one new donation is linked to the spark, and it carries the request's amount. */
  lemma DonationRecordedOnce(st: State, userId: UserId, sparkId: SparkId, req: DonationRequest)
    requires req.amount >= OneEuro
    requires AddDonationToSpark(st, userId, sparkId, req).Ok?
    ensures var st' := AddDonationToSpark(st, userId, sparkId, req).value;
      |DonationsTo(st'.donations, sparkId)| == |DonationsTo(st.donations, sparkId)| + 1
    ensures var st' := AddDonationToSpark(st, userId, sparkId, req).value;
      Sum(DonationsTo(st'.donations, sparkId)) == Sum(DonationsTo(st.donations, sparkId)) + req.amount
  {
    var st' := AddDonationToSpark(st, userId, sparkId, req).value;
    var d := st'.donations[0];
    assert st'.donations == [d] + st.donations;
    FilterAppend([d], st.donations, (x: Donation) => x.spark == sparkId);
    assert Filter([d], (x: Donation) => x.spark == sparkId) == [d] by {
      assert [d][1..] == [];
    }
    SumAppend([d], DonationsTo(st.donations, sparkId));
  }

  /**
   * A donation adds its spark to findAllSparksWithDonations and keeps every
   * spark already listed there.
   */
  lemma DonationFundsSpark(st: State, userId: UserId, sparkId: SparkId, req: DonationRequest)
    requires req.amount >= OneEuro
    requires AddDonationToSpark(st, userId, sparkId, req).Ok?
    requires Raised(st.sparks[sparkId]) >= 0
    ensures SparksWithDonations(AddDonationToSpark(st, userId, sparkId, req).value.sparks)
         == SparksWithDonations(st.sparks) + {sparkId}
  {
    var st' := AddDonationToSpark(st, userId, sparkId, req).value;
    assert forall k :: k in SparksWithDonations(st'.sparks) <==> k in SparksWithDonations(st.sparks) + {sparkId};
  }

  // ---------------------------------------------------------------------------
  // Donation statistics (getTotalDonationsInfo)

  /** A wallet as findAllWallets returns it: its owner's username and picture, and its donations. */
  datatype WalletEntry = WalletEntry(ownerName: string, ownerPicture: Option<string>, donations: seq<Donation>)

  /** One of the three leaderboard places: picture, username and donated sum. */
  datatype DonorRank = DonorRank(image: Option<string>, name: Option<string>, donations: Money)

  datatype TotalDonationsInfo = TotalDonationsInfo(
    totalMoneyRaised: int,
    totalSparksFunded: nat,
    first: DonorRank,
    second: DonorRank,
    third: DonorRank)

  /** getSumOfWalletDonations: the sum of the wallet's donations. */
  function WalletSum(e: WalletEntry): Money {
    Sum(e.donations)
  }

  /** The amount donated from all wallets of owner `name`. */
  function OwnerTotal(es: seq<WalletEntry>, name: string): Money
    decreases |es|
  {
    if |es| == 0 then 0
    else
      var last := es[|es| - 1];
      OwnerTotal(es[..|es| - 1], name) + (if last.ownerName == name then WalletSum(last) else 0)
  }

  /** The amount donated from all wallets. */
  function GrandTotal(es: seq<WalletEntry>): Money
    decreases |es|
  {
    if |es| == 0 then 0 else GrandTotal(es[..|es| - 1]) + WalletSum(es[|es| - 1])
  }

  /** `getOrDefault(name, ZERO)` on the per-owner totals. */
  function TotalOf(totals: map<string, Money>, name: string): Money {
    if name in totals then totals[name] else 0
  }

  /** The per-owner totals map built by merging each wallet's sum under its owner's username. */
  function MergeTotals(es: seq<WalletEntry>): (totals: map<string, Money>)
    ensures forall name :: TotalOf(totals, name) == OwnerTotal(es, name)
    decreases |es|
  {
    if |es| == 0 then map[]
    else
      var prior := MergeTotals(es[..|es| - 1]);
      var last := es[|es| - 1];
      prior[last.ownerName := TotalOf(prior, last.ownerName) + WalletSum(last)]
  }

  /** The ranking key: a wallet's owner total as looked up in `totals`. */
  function Ranking(totals: map<string, Money>): WalletEntry -> Money {
    (e: WalletEntry) => TotalOf(totals, e.ownerName)
  }

  /** Wallets whose owner total is at least one euro, in list order. */
  function EligibleDonors(es: seq<WalletEntry>, totals: map<string, Money>): seq<WalletEntry> {
    Filter(es, (e: WalletEntry) => Ranking(totals)(e) >= OneEuro)
  }

  /** The eligible wallets, stably sorted by descending owner total. */
  function RankedDonors(es: seq<WalletEntry>, totals: map<string, Money>): seq<WalletEntry> {
    SortDesc(EligibleDonors(es, totals), Ranking(totals))
  }

  /** The first (at most) three ranked wallets. */
  function TopDonors(es: seq<WalletEntry>, totals: map<string, Money>): seq<WalletEntry> {
    Take(RankedDonors(es, totals), 3)
  }

  /** Ranking by the merged totals is ranking by each owner's total donations. */
  lemma RankingIsOwnerTotal(es: seq<WalletEntry>)
    ensures forall e :: Ranking(MergeTotals(es))(e) == OwnerTotal(es, e.ownerName)
  {
  }

  /** The leaderboard holds at most three wallets of the list, each with an owner total of at least one euro. */
  lemma TopDonorsQualify(es: seq<WalletEntry>)
    ensures var top := TopDonors(es, MergeTotals(es));
      && |top| <= 3
      && forall i :: 0 <= i < |top| ==> top[i] in es && OwnerTotal(es, top[i].ownerName) >= OneEuro
  {
    var totals := MergeTotals(es);
    var ranked := RankedDonors(es, totals);
    var top := TopDonors(es, totals);
    RankingIsOwnerTotal(es);
    SameMembers(ranked, EligibleDonors(es, totals));
    forall i | 0 <= i < |top| ensures top[i] in es && OwnerTotal(es, top[i].ownerName) >= OneEuro {
      assert top[i] in ranked;
    }
  }

  /** The leaderboard is in non-increasing order of owner total. */
  lemma TopDonorsOrdered(es: seq<WalletEntry>)
    ensures var top := TopDonors(es, MergeTotals(es));
      forall i, j :: 0 <= i < j < |top| ==>
        OwnerTotal(es, top[i].ownerName) >= OwnerTotal(es, top[j].ownerName)
  {
  }

  /**
   * An eligible wallet is left off the leaderboard only when all three places
   * hold owners with totals at least as large.
   */
  lemma TopDonorsNoneBetterLeftOut(es: seq<WalletEntry>, e: WalletEntry)
    requires e in es && OwnerTotal(es, e.ownerName) >= OneEuro
    requires e !in TopDonors(es, MergeTotals(es))
    ensures var top := TopDonors(es, MergeTotals(es));
      |top| == 3 && forall i :: 0 <= i < 3 ==> OwnerTotal(es, top[i].ownerName) >= OwnerTotal(es, e.ownerName)
  {
    var totals := MergeTotals(es);
    var ranked := RankedDonors(es, totals);
    RankingIsOwnerTotal(es);
    assert e in EligibleDonors(es, totals);
    SameMembers(ranked, EligibleDonors(es, totals));
    TakeOfSortedDesc(ranked, Ranking(totals), 3);
  }

  /** Ties keep wallet-list order: the wallets sharing an owner total stay in list order. */
  lemma DonorRankingStable(es: seq<WalletEntry>, total: Money)
    ensures var totals := MergeTotals(es);
      KeepKey(RankedDonors(es, totals), Ranking(totals), total)
      == KeepKey(EligibleDonors(es, totals), Ranking(totals), total)
  {
    var totals := MergeTotals(es);
    SortDescStable(EligibleDonors(es, totals), Ranking(totals), total);
  }

  /** No two wallets of the list belong to the same username (usernames are unique, one wallet per user). */
  ghost predicate DistinctOwners(es: seq<WalletEntry>) {
    forall i, j :: 0 <= i < j < |es| ==> es[i].ownerName != es[j].ownerName
  }

  /** An owner with no wallet in the list has donated nothing. */
  lemma {:induction false} OwnerTotalAbsent(es: seq<WalletEntry>, name: string)
    requires forall i :: 0 <= i < |es| ==> es[i].ownerName != name
    ensures OwnerTotal(es, name) == 0
    decreases |es|
  {
    if |es| > 0 {
      OwnerTotalAbsent(es[..|es| - 1], name);
    }
  }

  /**
   * When owners are distinct, the sum a wallet shows (getSumOfWalletDonations)
   * is its owner's total, the key the leaderboard is ranked by.
   */
  lemma {:induction false} WalletSumIsOwnerTotal(es: seq<WalletEntry>, i: nat)
    requires DistinctOwners(es) && i < |es|
    ensures WalletSum(es[i]) == OwnerTotal(es, es[i].ownerName)
    decreases |es|
  {
    var prefix := es[..|es| - 1];
    if i == |es| - 1 {
      OwnerTotalAbsent(prefix, es[i].ownerName);
    } else {
      assert prefix[i] == es[i];
      WalletSumIsOwnerTotal(prefix, i);
    }
  }

  /** With distinct owners, each leaderboard place shows its owner's total. */
  lemma RankShowsOwnerTotal(es: seq<WalletEntry>, i: nat)
    requires DistinctOwners(es)
    requires i < |TopDonors(es, MergeTotals(es))|
    ensures var top := TopDonors(es, MergeTotals(es));
      RankOf(top, i).donations == OwnerTotal(es, top[i].ownerName)
  {
    var top := TopDonors(es, MergeTotals(es));
    TopDonorsQualify(es);
    assert top[i] in es;
    var j :| 0 <= j < |es| && es[j] == top[i];
    WalletSumIsOwnerTotal(es, j);
  }

  /** Place `i` of the leaderboard; an empty place has no picture, no name and ZERO. */
  function RankOf(top: seq<WalletEntry>, i: nat): (r: DonorRank)
    ensures i < |top| ==> r.name == Some(top[i].ownerName) && r.image == top[i].ownerPicture
    ensures i < |top| ==> r.donations == Sum(top[i].donations)
    ensures i >= |top| ==> r == DonorRank(None, None, 0)
  {
    if i < |top| then DonorRank(top[i].ownerPicture, Some(top[i].ownerName), WalletSum(top[i]))
    else DonorRank(None, None, 0)
  }

  /**
   * setScale(0, HALF_UP) from cents to whole euros: the nearest whole euro,
   * with halves rounded away from zero.
   */
  function RoundHalfUp(cents: int): (euros: int)
    ensures cents >= 0 ==> euros * 100 - 50 <= cents < euros * 100 + 50
    ensures cents < 0 ==> euros * 100 - 50 < cents <= euros * 100 + 50
  {
    if cents >= 0 then (cents + 50) / 100 else -((50 - cents) / 100)
  }

  /**
   * getTotalDonationsInfo over `wallets` (the findAllWallets list) and the
   * stored sparks: grand total rounded half up, the number of sparks with a
   * positive raised amount, and the three leaderboard places.
   */
  method GetTotalDonationsInfo(wallets: seq<WalletEntry>, sparks: map<SparkId, Spark>)
    returns (info: TotalDonationsInfo)
    ensures info.totalMoneyRaised == RoundHalfUp(GrandTotal(wallets))
    ensures info.totalSparksFunded == |SparksWithDonations(sparks)|
    ensures var top := TopDonors(wallets, MergeTotals(wallets));
      && info.first == RankOf(top, 0)
      && info.second == RankOf(top, 1)
      && info.third == RankOf(top, 2)
  {
    var totals: map<string, Money> := map[];
    var total: Money := 0;
    for i := 0 to |wallets|
      invariant totals == MergeTotals(wallets[..i])
      invariant total == GrandTotal(wallets[..i])
    {
      assert wallets[..i + 1][..i] == wallets[..i];
      var name := wallets[i].ownerName;
      var walletTotal := WalletSum(wallets[i]);
      totals := totals[name := TotalOf(totals, name) + walletTotal];
      total := total + walletTotal;
    }
    assert wallets[..|wallets|] == wallets;
    var top := TopDonors(wallets, totals);
    info := TotalDonationsInfo(
      totalMoneyRaised := RoundHalfUp(total),
      totalSparksFunded := |SparksWithDonations(sparks)|,
      first := RankOf(top, 0),
      second := RankOf(top, 1),
      third := RankOf(top, 2));
  }
}
