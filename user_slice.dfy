/** The global session slice: who is signed in, and whether anyone is. */
module UserSlice {

  /** The signed-in user's profile. */
  datatype User = User(
    username: string,
    email: string,
    name: string,
    role: string,
    imageLink: string,
    backgroundImageLink: string,
    phone: string,
    address: string,
    gender: string
  )

  /** The whole slice state: nothing else is stored in it. */
  datatype UserState = UserState(user: User, isLoggedIn: bool)

  /** Every profile field empty. */
  const EmptyUser: User := User("", "", "", "", "", "", "", "", "")

  /** The state before anyone signs in, and after signing out. */
  const InitialState: UserState := UserState(EmptyUser, false)

  /** The three actions the slice answers to. */
  datatype Action = Login(user: User) | Logout | InitData(state: UserState)

  /** The state one action leads to: a login signs the given user in, a logout goes
      back to the initial state, and restoring installs the given state. */
  function Reduce(state: UserState, action: Action): (next: UserState)
    ensures action.Login? ==> next.isLoggedIn && next.user == action.user
    ensures action.Logout? ==> !next.isLoggedIn && next.user == EmptyUser
    ensures action.InitData? ==> next.isLoggedIn == action.state.isLoggedIn && next.user == action.state.user
  {
    match action
    case Login(u) => UserState(u, true)
    case Logout => InitialState
    case InitData(s) => s
  }

  /** The state a sequence of actions leads to. */
  function Run(state: UserState, actions: seq<Action>): UserState
    decreases |actions|
  {
    if actions == [] then state else Run(Reduce(state, actions[0]), actions[1..])
  }

  /** The initial state has every profile field empty and nobody signed in. */
  lemma InitialStateIsEmpty()
    ensures InitialState.user.username == "" && InitialState.user.email == ""
    ensures InitialState.user.name == "" && InitialState.user.role == ""
    ensures InitialState.user.imageLink == "" && InitialState.user.backgroundImageLink == ""
    ensures InitialState.user.phone == "" && InitialState.user.address == ""
    ensures InitialState.user.gender == ""
    ensures !InitialState.isLoggedIn
  {
  }

  /** The state after a login does not depend on the state before it. */
  lemma LoginForgetsPriorState(s: UserState, t: UserState, u: User)
    ensures Reduce(s, Login(u)) == Reduce(t, Login(u)) == UserState(u, true)
  {
  }

  /** A logout always reaches the initial state, so a second logout changes nothing. */
  lemma LogoutIdempotent(s: UserState)
    ensures Reduce(s, Logout) == InitialState
    ensures Reduce(Reduce(s, Logout), Logout) == Reduce(s, Logout)
  {
  }

  /** Signing in and then out leaves no trace of the user. */
  lemma LoginThenLogout(s: UserState, u: User)
    ensures Run(s, [Login(u), Logout]) == InitialState
  {
    assert [Login(u), Logout][1..] == [Logout];
    var signedIn := Reduce(s, Login(u));
    assert Run(s, [Login(u), Logout]) == Run(signedIn, [Logout]);
    assert Run(signedIn, [Logout]) == Run(Reduce(signedIn, Logout), []);
  }

  /** Restoring a state installs it field for field. */
  lemma InitDataInstalls(s: UserState, t: UserState)
    ensures Reduce(s, InitData(t)) == t
  {
  }

  /** A run that ends with a logout ends in the initial state, whatever came before. */
  lemma {:induction false} RunEndingInLogout(s: UserState, actions: seq<Action>)
    requires actions != [] && actions[|actions| - 1] == Logout
    ensures Run(s, actions) == InitialState
    decreases |actions|
  {
    if |actions| > 1 {
      RunEndingInLogout(Reduce(s, actions[0]), actions[1..]);
    }
  }

  /** Only logins and logouts, no restore. */
  predicate SessionActions(actions: seq<Action>)
  {
    forall i :: 0 <= i < |actions| ==> !actions[i].InitData?
  }

  /** From a state where a signed-out session holds the empty profile, logins and
      logouts alone keep it that way: a signed-out user is always the empty one. */
  lemma {:induction false} SignedOutMeansEmpty(s: UserState, actions: seq<Action>)
    requires s.isLoggedIn || s.user == EmptyUser
    requires SessionActions(actions)
    ensures Run(s, actions).isLoggedIn || Run(s, actions).user == EmptyUser
    decreases |actions|
  {
    if actions != [] {
      assert !actions[0].InitData?;
      SignedOutMeansEmpty(Reduce(s, actions[0]), actions[1..]);
    }
  }

  /** The slice as the store holds it, changed in place by each reducer. */
  class UserSlice {
    var user: User
    var isLoggedIn: bool

    function State(): UserState
      reads this
    {
      UserState(user, isLoggedIn)
    }

    constructor ()
      ensures State() == InitialState
    {
      user := EmptyUser;
      isLoggedIn := false;
    }

    /** `login`: stores the action's user and signs in. */
    method Login(payload: User)
      modifies this
      ensures user == payload && isLoggedIn
      ensures State() == Reduce(old(State()), Action.Login(payload))
    {
      user := payload;
      isLoggedIn := true;
    }

    /** `logout`: back to the empty profile, signed out. */
    method Logout()
      modifies this
      ensures State() == InitialState
      ensures State() == Reduce(old(State()), Action.Logout)
    {
      user := InitialState.user;
      isLoggedIn := false;
    }

    /** `initData`: overwrites both fields with the action's state. */
    method InitData(payload: UserState)
      modifies this
      ensures State() == payload
      ensures State() == Reduce(old(State()), Action.InitData(payload))
    {
      user := payload.user;
      isLoggedIn := payload.isLoggedIn;
    }
  }
}
