/**
 * The entities of SparkFund (users, wallets, sparks, donations, user signals)
 * and the in-memory store that replaces the JPA repositories: one map per
 * entity, keyed by id, plus the donation log.
 */
module Model {
  import opened Common
  import opened Collections

  datatype UserId = UserId(uuid: nat)
  datatype WalletId = WalletId(uuid: nat)
  datatype SparkId = SparkId(uuid: nat)
  datatype SignalId = SignalId(uuid: nat)

  /** An amount of money in euro cents (the source's two-decimal EUR BigDecimal). */
  type Money = int

  /** One euro, the smallest donation a request may carry. */
  const OneEuro: Money := 100

  datatype UserRole = RoleUser | RoleAdmin
  datatype UserStatus = Active | Inactive

  datatype User = User(
    id: UserId,
    username: string,
    password: string,
    email: string,
    profilePicture: Option<string>,
    role: UserRole,
    status: UserStatus,
    wallet: Option<WalletId>)

  datatype Wallet = Wallet(
    id: WalletId,
    owner: UserId,
    amount: Option<Money>,
    currency: string)

  datatype SparkStatus = Active | Completed | Cancelled {
    /** The enum constant's name, which the list filters compare against. */
    function Name(): string {
      match this
      case Active => "ACTIVE"
      case Completed => "COMPLETED"
      case Cancelled => "CANCELLED"
    }
  }

  /**
   * A spark; `category` is the name of its SparkCategory constant.
   * `currentAmount` is its own field, not the sum of its donations.
   */
  datatype Spark = Spark(
    id: SparkId,
    creator: UserId,
    title: string,
    description: string,
    goalAmount: Money,
    currentAmount: Option<Money>,
    firstPictureUrl: string,
    secondPictureUrl: Option<string>,
    thirdPictureUrl: Option<string>,
    status: SparkStatus,
    category: string)

  /** A donation record: immutable once written. */
  datatype Donation = Donation(
    amount: Money,
    message: string,
    spark: SparkId,
    wallet: Option<WalletId>)

  datatype UserSignalStatus = Pending | Resolved {
    function Name(): string {
      match this
      case Pending => "PENDING"
      case Resolved => "RESOLVED"
    }
  }

  datatype UserSignal = UserSignal(
    id: SignalId,
    creator: UserId,
    title: string,
    message: string,
    status: UserSignalStatus,
    adminResponse: Option<string>)

  /**
   * The persisted state. `donations` lists the donation records newest first,
   * the `createdOn DESC` order in which a spark or wallet lists its donations.
   */
  datatype State = State(
    users: map<UserId, User>,
    wallets: map<WalletId, Wallet>,
    sparks: map<SparkId, Spark>,
    donations: seq<Donation>,
    signals: map<SignalId, UserSignal>)

  /** A nullable amount read as zero when null. */
  function OrZero(amount: Option<Money>): Money {
    amount.GetOr(0)
  }

  /** The wallet's balance, null read as zero. */
  function Balance(w: Wallet): Money {
    OrZero(w.amount)
  }

  /** The spark's raised amount, null read as zero. */
  function Raised(s: Spark): Money {
    OrZero(s.currentAmount)
  }

  /** All money held in wallets. */
  ghost function TotalBalance(wallets: map<WalletId, Wallet>): Money {
    SumBy(wallets, Balance)
  }

  /** All money recorded as raised by sparks. */
  ghost function TotalRaised(sparks: map<SparkId, Spark>): Money {
    SumBy(sparks, Raised)
  }

  /** Spark.getDonations(): the donations made to spark `id`. */
  function DonationsTo(log: seq<Donation>, id: SparkId): seq<Donation> {
    Filter(log, (d: Donation) => d.spark == id)
  }

  /** Wallet.getDonations(): the donations made from wallet `id`. */
  function DonationsFrom(log: seq<Donation>, id: WalletId): seq<Donation> {
    Filter(log, (d: Donation) => d.wallet == Some(id))
  }

  /** The sum of the donations' amounts (a stream reduce with BigDecimal::add from ZERO). */
  function Sum(ds: seq<Donation>): Money {
    if |ds| == 0 then 0 else ds[0].amount + Sum(ds[1..])
  }

  lemma {:induction false} SumAppend(a: seq<Donation>, b: seq<Donation>)
    ensures Sum(a + b) == Sum(a) + Sum(b)
    decreases |a|
  {
    if |a| == 0 {
      assert a + b == b;
    } else {
      assert (a + b)[1..] == a[1..] + b;
      SumAppend(a[1..], b);
    }
  }

  /** A sum of non-negative donations is non-negative. */
  lemma {:induction false} SumNonNegative(ds: seq<Donation>)
    requires forall d :: d in ds ==> d.amount >= 0
    ensures Sum(ds) >= 0
    decreases |ds|
  {
    if |ds| > 0 {
      assert ds[0] in ds;
      assert forall d :: d in ds[1..] ==> d in ds;
      SumNonNegative(ds[1..]);
    }
  }

  /** The ledger is sound: no wallet is overdrawn and every recorded donation is at least one euro. */
  ghost predicate LedgerSound(st: State) {
    && (forall w :: w in st.wallets ==> Balance(st.wallets[w]) >= 0)
    && (forall d :: d in st.donations ==> d.amount >= OneEuro)
  }

  /** Every wallet belongs to a known user. */
  ghost predicate WalletOwnersKnown(st: State) {
    forall w :: w in st.wallets ==> st.wallets[w].owner in st.users
  }
}
