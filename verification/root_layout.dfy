/**
  `RootLayout` of `app/_layout.tsx`: the start-up `prepare` effect (ensure the
  master key, then record the session and mark the layout initialised) and
  the three-way decision of what to render.
 */
module RootLayout {
  import opened Wrappers
  import opened MasterKey

  /** An authenticated session, opaque to the layout. */
  datatype Session = Session(userId: string)

  /** What the root layout renders. */
  datatype Screen = Nothing | AuthScreen | AppStack

  /** The layout's state: the secret store it prepares and its two React state cells. */
  datatype Layout = Layout(store: Store, initialized: bool, session: Option<Session>)

  /** The state on first render: not initialised, no session. */
  function Mounted(store: Store): (l: Layout)
    ensures l.store == store
    ensures Render(l) == Nothing
  {
    Layout(store, false, None)
  }

  /** The routing decision: nothing until initialised, then the auth screen
      without a session and the tab stack with one. */
  function Route(initialized: bool, hasSession: bool): (s: Screen)
    ensures s == Nothing <==> !initialized
    ensures s == AuthScreen <==> initialized && !hasSession
    ensures s == AppStack <==> initialized && hasSession
  {
    if !initialized then Nothing
    else if !hasSession then AuthScreen
    else AppStack
  }

  /** What `l` renders. */
  function Render(l: Layout): Screen {
    Route(l.initialized, l.session.Some?)
  }

  /** How the `getSession` call settles: it rejects, or resolves with a session or null. */
  datatype SessionReply = SessionRejected | SessionResolved(session: Option<Session>)

  /** How the awaited calls of one `prepare` run settle. `writeRejects` only
      matters when the key slot is empty and a write is attempted. */
  datatype PrepareIO = PrepareIO(readRejects: bool, writeRejects: bool, sessionReply: SessionReply)

  /** Whether the key-ensure part of `prepare` ran to its end. */
  predicate KeyStepDone(store: Store, io: PrepareIO) {
    !io.readRejects && (HasKey(store) || !io.writeRejects)
  }

  /** Whether the whole of `prepare` ran to its end. */
  predicate Completes(store: Store, io: PrepareIO) {
    KeyStepDone(store, io) && io.sessionReply.SessionResolved?
  }

  /**
    `prepare`: ensure the master key with the `generated` candidate, then store
    the session the auth client returned and mark the layout initialised. The
    run is started without `await` or `catch`, so the first rejected call ends
    it silently: the steps after it never happen.
   */
  function Prepare(l: Layout, generated: string, io: PrepareIO): (l': Layout)
    ensures KeyStepDone(l.store, io) ==> l'.store == EnsureKey(l.store, generated)
    ensures !KeyStepDone(l.store, io) ==> l'.store == l.store
    ensures KeyStepDone(l.store, io) && generated != "" ==> HasKey(l'.store)
    ensures Completes(l.store, io) ==> Render(l') != Nothing
    ensures Completes(l.store, io) ==> (Render(l') == AppStack <==> io.sessionReply.session.Some?)
    ensures !Completes(l.store, io) ==> l'.initialized == l.initialized && l'.session == l.session
  {
    if !KeyStepDone(l.store, io) then l
    else
      var store := EnsureKey(l.store, generated);
      match io.sessionReply
      case SessionRejected => l.(store := store)
      case SessionResolved(session) => Layout(store, true, session)
  }

  /** A `prepare` run that rejects anywhere leaves a freshly mounted layout
      rendering nothing for the rest of the mount. */
  lemma RejectedPrepareRendersNothing(store: Store, generated: string, io: PrepareIO)
    requires !Completes(store, io)
    ensures Render(Prepare(Mounted(store), generated, io)) == Nothing
  {
  }

  /** Once a start has got through the key step leaving a non-empty key (one
      that was there already, or a non-empty generated one), a later start
      never replaces it, whatever that start generates and however its calls
      settle. */
  lemma PrepareKeepsKey(store: Store, g1: string, io1: PrepareIO, g2: string, io2: PrepareIO)
    requires HasKey(store) || g1 != ""
    requires KeyStepDone(store, io1)
    ensures Prepare(Mounted(Prepare(Mounted(store), g1, io1).store), g2, io2).store
         == Prepare(Mounted(store), g1, io1).store
  {
    if !HasKey(store) {
      EnsureKeyIdempotent(store, g1, g2);
    }
  }
}
