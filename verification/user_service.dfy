/**
 * UserService: registration (unique username and email, a USER/ACTIVE
 * account with one fresh wallet) and the login lookup.
 */
module UserService {
  import opened Common
  import opened Model
  import opened Collections
  import opened WalletService

  /** The registration form fields the service reads. */
  datatype RegisterRequest = RegisterRequest(username: string, email: string, password: string)

  /** What loadUserByUsername hands to the security layer. */
  datatype AuthenticationDetails = AuthenticationDetails(
    id: UserId,
    username: string,
    password: string,
    role: UserRole,
    status: UserStatus)

  predicate UsernameTaken(users: map<UserId, User>, username: string) {
    exists k :: k in users && users[k].username == username
  }

  predicate EmailTaken(users: map<UserId, User>, email: string) {
    exists k :: k in users && users[k].email == email
  }

  /** The unique constraints on username and email. */
  ghost predicate UniqueAccounts(users: map<UserId, User>) {
    && UniqueUsernames(users)
    && (forall a, b :: a in users && b in users && users[a].email == users[b].email ==> a == b)
  }

  /** No two accounts share a username. */
  ghost predicate UniqueUsernames(users: map<UserId, User>) {
    forall a, b :: a in users && b in users && users[a].username == users[b].username ==> a == b
  }

  /**
   * register: a taken username is rejected first, then a taken email;
   * otherwise the user (password passed through `encode`) and a wallet owned
   * by it are stored under the fresh ids `userId` and `walletId`.
   */
  function Register(st: State, userId: UserId, walletId: WalletId, req: RegisterRequest, encode: string -> string)
    : (r: Result<State>)
    requires userId !in st.users && walletId !in st.wallets
    ensures r.Ok? <==> !UsernameTaken(st.users, req.username) && !EmailTaken(st.users, req.email)
    ensures UsernameTaken(st.users, req.username) ==> r == Err(Domain)
    ensures EmailTaken(st.users, req.email) ==> r == Err(Domain)
    ensures r.Ok? ==> r.value.users.Keys == st.users.Keys + {userId}
    ensures r.Ok? ==>
      var u := r.value.users[userId];
      && (forall k :: k in st.users ==> r.value.users[k] == st.users[k])
      && u.id == userId && u.username == req.username && u.email == req.email
      && u.password == encode(req.password)
      && u.role == RoleUser && u.status == UserStatus.Active
      && u.wallet == Some(walletId)
    ensures r.Ok? ==>
      && r.value.wallets.Keys == st.wallets.Keys + {walletId}
      && (forall k :: k in st.wallets ==> r.value.wallets[k] == st.wallets[k])
      && r.value.wallets[walletId].owner == userId
      && r.value.wallets[walletId].amount == Some(0)
    ensures r.Ok? ==>
      r.value.sparks == st.sparks && r.value.donations == st.donations && r.value.signals == st.signals
  {
    if UsernameTaken(st.users, req.username) then Err(Domain)
    else if EmailTaken(st.users, req.email) then Err(Domain)
    else
      var user := User(userId, req.username, encode(req.password), req.email, None,
                       RoleUser, UserStatus.Active, Some(walletId));
      Ok(st.(users := st.users[userId := user], wallets := st.wallets[walletId := CreateWallet(walletId, userId)]))
  }

  /** Registration keeps usernames and emails unique. */
  lemma RegisterKeepsAccountsUnique(st: State, userId: UserId, walletId: WalletId, req: RegisterRequest, encode: string -> string)
    requires userId !in st.users && walletId !in st.wallets
    requires UniqueAccounts(st.users)
    requires Register(st, userId, walletId, req, encode).Ok?
    ensures UniqueAccounts(Register(st, userId, walletId, req, encode).value.users)
  {
    assert forall k :: k in st.users ==> st.users[k].username != req.username && st.users[k].email != req.email;
  }

  /** The wallets owned by `owner`. */
  ghost function WalletsOf(wallets: map<WalletId, Wallet>, owner: UserId): set<WalletId> {
    set w | w in wallets && wallets[w].owner == owner
  }

  /** Exactly one wallet belongs to the new user, and every wallet still has a known owner. */
  lemma RegisterCreatesOneWallet(st: State, userId: UserId, walletId: WalletId, req: RegisterRequest, encode: string -> string)
    requires userId !in st.users && walletId !in st.wallets
    requires WalletOwnersKnown(st)
    requires Register(st, userId, walletId, req, encode).Ok?
    ensures var st' := Register(st, userId, walletId, req, encode).value;
      WalletsOf(st'.wallets, userId) == {walletId} && WalletOwnersKnown(st')
  {
    var st' := Register(st, userId, walletId, req, encode).value;
    assert forall w :: w in st.wallets ==> st.wallets[w].owner != userId;
    assert forall w :: w in st'.wallets && w != walletId ==> w in st.wallets && st'.wallets[w] == st.wallets[w];
    assert WalletsOf(st'.wallets, userId) == {walletId};
  }

  /** Registration creates no money: the new wallet holds zero, and a sound ledger stays sound. */
  lemma RegisterCreatesNoMoney(st: State, userId: UserId, walletId: WalletId, req: RegisterRequest, encode: string -> string)
    requires userId !in st.users && walletId !in st.wallets
    requires Register(st, userId, walletId, req, encode).Ok?
    ensures TotalBalance(Register(st, userId, walletId, req, encode).value.wallets) == TotalBalance(st.wallets)
    ensures LedgerSound(st) ==> LedgerSound(Register(st, userId, walletId, req, encode).value)
  {
    var st' := Register(st, userId, walletId, req, encode).value;
    assert st'.wallets == st.wallets[walletId := st'.wallets[walletId]];
    SumByInsert(st.wallets, walletId, st'.wallets[walletId], Balance);
  }

  /**
   * loadUserByUsername: the stored account with that username, or a domain
   * error when there is none.
   */
  function LoadUserByUsername(users: map<UserId, User>, username: string): (r: Result<AuthenticationDetails>)
    requires UniqueUsernames(users)
    ensures r.Ok? <==> UsernameTaken(users, username)
    ensures r.Err? ==> r.error == Domain
    ensures r.Ok? ==>
      && r.value.id in users
      && r.value.username == username == users[r.value.id].username
      && r.value.password == users[r.value.id].password
      && r.value.role == users[r.value.id].role
      && r.value.status == users[r.value.id].status
  {
    if !UsernameTaken(users, username) then Err(Domain)
    else
      var k :| k in users && users[k].username == username;
      var u := users[k];
      Ok(AuthenticationDetails(k, username, u.password, u.role, u.status))
  }

  /** A registered user can log in with the stored (encoded) password, role USER and status ACTIVE. */
  lemma RegisteredUserCanLogIn(st: State, userId: UserId, walletId: WalletId, req: RegisterRequest, encode: string -> string)
    requires userId !in st.users && walletId !in st.wallets
    requires UniqueAccounts(st.users)
    requires Register(st, userId, walletId, req, encode).Ok?
    ensures var users' := Register(st, userId, walletId, req, encode).value.users;
      UniqueAccounts(users')
      && LoadUserByUsername(users', req.username)
         == Ok(AuthenticationDetails(userId, req.username, encode(req.password), RoleUser, UserStatus.Active))
  {
    var users' := Register(st, userId, walletId, req, encode).value.users;
    RegisterKeepsAccountsUnique(st, userId, walletId, req, encode);
    assert users'[userId].username == req.username;
  }
}
