/** The hand-over of sessions from the capture thread to the decode thread, as a transition
    system over the steps of the two threads. */
module SessionPool {
  import opened Bytes
  import opened TcpId

  datatype Holder = Free | Capture | Decoder

  /** `push_back` and `erase` around the lock, step by step. */
  datatype Stage = Locking | Pushing | Unlocking | Erasing

  /** Where the capture thread is: between packets, at a packet whose session it has found, in
      the scan for timeouts, or posting the session under `key`. */
  datatype Cap = Waiting | Handling(id: Id, key: Id) | Scanning | Posting(stage: Stage, key: Id, scan: bool)

  /** Where the decode thread is: the lock taken, the lock still held after the pop, or with a
      session of its own. */
  datatype Dec = Polling | Popping | Popped(got: Option<nat>) | Using(n: nat)

  /** Sessions are known by their number; `freed` are those that have been deleted. */
  datatype Pool = Pool(index: nat, active: map<Id, nat>, closed: seq<nat>, freed: set<nat>, lock: Holder, cap: Cap,
    dec: Dec)

  const EMPTY := Pool(0, map[], [], {}, Free, Waiting, Polling)

  /** What the hash table's `find` stops at. */
  predicate Finds(s: Pool, id: Id, key: Id) {
    key in s.active && Hash(key) == Hash(id) && Same(key, id)
  }

  datatype Action =
    | Create(id: Id) | Arrive(id: Id, key: Id) | Touch | Leave | Scan | Post(key: Id)
    | Examine(key: Id) | Expire(key: Id) | EndScan
    | CapLock | Push | CapUnlock | Erase
    | DecLock | Pop | DecUnlock | Use | Delete

  ghost predicate Enabled(s: Pool, a: Action) {
    match a
    case Create(id) => s.cap.Waiting? && forall key :: key in s.active ==> !Finds(s, id, key)
    case Arrive(id, key) => s.cap.Waiting? && Finds(s, id, key)
    case Touch => s.cap.Handling?
    case Leave => s.cap.Handling?
    case Scan => s.cap.Handling?
    case Post(key) => s.cap.Handling? && Finds(s, s.cap.id, key)
    case Examine(key) => s.cap.Scanning? && key in s.active
    case Expire(key) => s.cap.Scanning? && key in s.active
    case EndScan => s.cap.Scanning?
    case CapLock => s.cap.Posting? && s.cap.stage.Locking? && s.lock.Free?
    case Push => s.cap.Posting? && s.cap.stage.Pushing? && s.cap.key in s.active
    case CapUnlock => s.cap.Posting? && s.cap.stage.Unlocking?
    case Erase => s.cap.Posting? && s.cap.stage.Erasing?
    case DecLock => s.dec.Polling? && s.lock.Free?
    case Pop => s.dec.Popping?
    case DecUnlock => s.dec.Popped?
    case Use => s.dec.Using?
    case Delete => s.dec.Using?
  }

  function Apply(s: Pool, a: Action): Pool
    requires Enabled(s, a)
  {
    match a
    case Create(id) => s.(index := s.index + 1, active := s.active[id := s.index + 1])
    case Arrive(id, key) => s.(cap := Handling(id, key))
    case Touch => s
    case Leave => s.(cap := Waiting)
    case Scan => s.(cap := Scanning)
    case Post(key) => s.(cap := Posting(Locking, key, false))
    case Examine(_) => s
    case Expire(key) => s.(cap := Posting(Locking, key, true))
    case EndScan => s.(cap := Waiting)
    case CapLock => s.(lock := Capture, cap := s.cap.(stage := Pushing))
    case Push => s.(closed := s.closed + [s.active[s.cap.key]], cap := s.cap.(stage := Unlocking))
    case CapUnlock => s.(lock := Free, cap := s.cap.(stage := Erasing))
    case Erase => s.(active := s.active - {s.cap.key}, cap := if s.cap.scan then Scanning else Waiting)
    case DecLock => s.(lock := Decoder, dec := Popping)
    case Pop =>
      if s.closed == [] then s.(dec := Popped(None))
      else s.(closed := s.closed[1..], dec := Popped(Some(s.closed[0])))
    case DecUnlock => s.(lock := Free, dec := if s.dec.got.Some? then Using(s.dec.got.value) else Polling)
    case Use => s
    case Delete => s.(freed := s.freed + {s.dec.n}, dec := Polling)
  }

  predicate ByCapture(a: Action) {
    !a.DecLock? && !a.Pop? && !a.DecUnlock? && !a.Use? && !a.Delete?
  }

  /** The sessions whose memory an action reads or writes. */
  ghost function Touched(s: Pool, a: Action): set<nat>
    requires Enabled(s, a)
  {
    match a
    case Create(_) => {s.index + 1}
    case Touch => if s.cap.key in s.active then {s.active[s.cap.key]} else {}
    case Post(key) => {s.active[key]}
    case Examine(key) => {s.active[key]}
    case Expire(key) => {s.active[key]}
    case Use => {s.dec.n}
    case Delete => {s.dec.n}
    case _ => {}
  }

  // ---- The invariant ----

  function Owned(s: Pool): set<nat> {
    match s.dec
    case Popped(Some(n)) => {n}
    case Using(n) => {n}
    case _ => {}
  }

  function InList(s: Pool): set<nat> {
    set n | n in s.closed
  }

  /** Sessions the capture thread has let go of. */
  function Gone(s: Pool): set<nat> {
    InList(s) + Owned(s) + s.freed
  }

  predicate Distinct(l: seq<nat>) {
    forall i, j :: 0 <= i < j < |l| ==> l[i] != l[j]
  }

  /** The entry that is still in the table although its session has been posted. */
  predicate Lingers(s: Pool, key: Id) {
    s.cap.Posting? && (s.cap.stage.Unlocking? || s.cap.stage.Erasing?) && s.cap.key == key
  }

  /** No two entries for one connection, or for one session. */
  ghost predicate Keys(s: Pool) {
    forall k, l :: k in s.active && l in s.active && (Same(k, l) || s.active[k] == s.active[l]) ==> k == l
  }

  /** Sessions are numbered from 1 and none is lost. */
  ghost predicate Numbers(s: Pool) {
    && (forall k :: k in s.active ==> 1 <= s.active[k] <= s.index)
    && (forall n :: n in Gone(s) ==> 1 <= n <= s.index)
    && (forall n :: 1 <= n <= s.index ==> n in s.active.Values || n in Gone(s))
  }

  predicate Apart(s: Pool) {
    Distinct(s.closed) && InList(s) !! Owned(s) && InList(s) !! s.freed && Owned(s) !! s.freed
  }

  /** The table holds sessions that have not been let go of, and at most one that has. */
  ghost predicate Tabled(s: Pool) {
    forall k :: k in s.active ==> (s.active[k] in Gone(s) <==> Lingers(s, k))
  }

  predicate Threads(s: Pool) {
    && (s.cap.Handling? ==> Finds(s, s.cap.id, s.cap.key))
    && (s.cap.Posting? ==> s.cap.key in s.active)
    && (s.lock.Capture? <==> s.cap.Posting? && (s.cap.stage.Pushing? || s.cap.stage.Unlocking?))
    && (s.lock.Decoder? <==> s.dec.Popping? || s.dec.Popped?)
  }

  ghost predicate Inv(s: Pool) {
    Keys(s) && Numbers(s) && Apart(s) && Tabled(s) && Threads(s)
  }

  lemma InvEmpty()
    ensures Inv(EMPTY)
  {
  }

  /** Both directions of a connection find the same entry, and there is no other. */
  lemma EitherDirection(s: Pool, id: Id, key: Id, key': Id)
    requires Inv(s)
    ensures Finds(s, id, key) <==> Finds(s, Reversed(id), key)
    ensures Finds(s, id, key) <==> key in s.active && Same(key, id)
    ensures Finds(s, id, key) && Finds(s, id, key') ==> key == key'
  {
    hide Hash, Inv;
    SameIsEquivalence(key, id, Reversed(id));
    SameIsEquivalence(id, Reversed(id), key);
    SameIsEquivalence(key, Reversed(id), id);
    if Finds(s, id, key) && Finds(s, id, key') {
      SameIsEquivalence(id, key', key);
      SameIsEquivalence(key, id, key');
      SameKey(s, key, key');
    }
  }

  lemma SameKey(s: Pool, key: Id, key': Id)
    requires Inv(s) && key in s.active && key' in s.active && Same(key, key')
    ensures key == key'
  {
    hide Same;
  }

  /** No step of either thread breaks the invariant. */
  lemma InvKept(s: Pool, a: Action)
    requires Inv(s) && Enabled(s, a)
    ensures Inv(Apply(s, a))
  {
    hide Hash, Same;
    match a
    case Create(id) => CreateKept(s, id);
    case Push => PushKept(s);
    case Erase => EraseKept(s);
    case Pop => PopKept(s);
    case Delete => DeleteKept(s);
    case _ => if ByCapture(a) { QuietCaptureKept(s, a); } else { QuietDecodeKept(s, a); }
  }

  lemma CreateKept(s: Pool, id: Id)
    requires Inv(s) && Enabled(s, Create(id))
    ensures Inv(Apply(s, Create(id)))
  {
    hide Hash, Same, Keys, Numbers;
    var s' := Apply(s, Create(id));
    assert Gone(s') == Gone(s);
    CreateKeys(s, id);
    CreateNumbers(s, id);
    assert Tabled(s') by { hide Distinct; assert s.index + 1 !in Gone(s) by { GoneBound(s); } }
  }

  lemma GoneBound(s: Pool)
    requires Numbers(s)
    ensures s.index + 1 !in Gone(s)
  {
  }

  lemma CreateKeys(s: Pool, id: Id)
    requires Keys(s) && Numbers(s) && Enabled(s, Create(id))
    ensures id !in s.active && Keys(Apply(s, Create(id)))
  {
    forall k | k in s.active
      ensures !Same(k, id) && !Same(id, k)
    {
      SameIsEquivalence(k, id, k);
      SameIsEquivalence(id, k, id);
      assert !Finds(s, id, k);
    }
    hide Hash, Same, Gone;
    SameIsEquivalence(id, id, id);
  }

  lemma CreateNumbers(s: Pool, id: Id)
    requires Numbers(s) && Enabled(s, Create(id)) && id !in s.active
    ensures Numbers(Apply(s, Create(id)))
  {
    hide Hash, Same;
    var s' := Apply(s, Create(id));
    assert Gone(s') == Gone(s);
    ValuesInsert(s.active, id, s.index + 1);
  }

  lemma PushKept(s: Pool)
    requires Inv(s) && Enabled(s, Push)
    ensures Inv(Apply(s, Push))
  {
    hide Hash, Same;
    var s', n := Apply(s, Push), s.active[s.cap.key];
    assert InList(s') == InList(s) + {n};
    assert Gone(s') == Gone(s) + {n};
    assert n !in Gone(s);
  }

  lemma EraseKept(s: Pool)
    requires Inv(s) && Enabled(s, Erase)
    ensures Inv(Apply(s, Erase))
  {
    hide Hash, Same;
    var s', n := Apply(s, Erase), s.active[s.cap.key];
    assert Gone(s') == Gone(s) && n in Gone(s);
    ErasesValue(s.active, s.cap.key);
  }

  lemma ErasesValue(m: map<Id, nat>, key: Id)
    requires key in m
    ensures forall n :: n in m.Values && n != m[key] ==> n in (m - {key}).Values
  {
    forall n | n in m.Values && n != m[key]
      ensures n in (m - {key}).Values
    {
      var k :| k in m && m[k] == n;
      assert (m - {key})[k] == n;
    }
  }

  lemma PopKept(s: Pool)
    requires Inv(s) && Enabled(s, Pop)
    ensures Inv(Apply(s, Pop))
  {
    hide Hash, Same;
    var s' := Apply(s, Pop);
    if s.closed != [] {
      assert InList(s) == InList(s') + {s.closed[0]} by { assert s.closed == [s.closed[0]] + s.closed[1..]; }
      assert s.closed[0] !in InList(s');
    }
    assert Gone(s') == Gone(s);
  }

  lemma DeleteKept(s: Pool)
    requires Inv(s) && Enabled(s, Delete)
    ensures Inv(Apply(s, Delete))
  {
    hide Hash, Same;
    var s' := Apply(s, Delete);
    assert InList(s') == InList(s) && Gone(s') == Gone(s);
  }

  /** Steps that only move a thread along. */
  predicate Quiet(a: Action) {
    !a.Create? && !a.Push? && !a.Erase? && !a.Pop? && !a.Delete?
  }

  lemma QuietCaptureKept(s: Pool, a: Action)
    requires Inv(s) && Enabled(s, a) && Quiet(a) && ByCapture(a)
    ensures Inv(Apply(s, a))
  {
    hide Hash, Same;
    var s' := Apply(s, a);
    assert InList(s') == InList(s) && Owned(s') == Owned(s) && Gone(s') == Gone(s);
    assert forall key :: Lingers(s', key) <==> Lingers(s, key);
  }

  lemma QuietDecodeKept(s: Pool, a: Action)
    requires Inv(s) && Enabled(s, a) && Quiet(a) && !ByCapture(a)
    ensures Inv(Apply(s, a))
  {
    hide Hash, Same;
    var s' := Apply(s, a);
    assert InList(s') == InList(s) && Owned(s') == Owned(s) && Gone(s') == Gone(s);
    assert s'.cap == s.cap;
  }

  // ---- What follows ----

  /** The capture thread touches only sessions it has not let go of, the decode thread only the
      one it owns, and neither a deleted one. */
  lemma TouchesOwn(s: Pool, a: Action)
    requires Inv(s) && Enabled(s, a)
    ensures Touched(s, a) !! s.freed
    ensures ByCapture(a) ==> Touched(s, a) !! Gone(s)
    ensures !ByCapture(a) ==> Touched(s, a) <= Owned(s)
  {
    hide Hash, Same, Keys, Distinct;
    if ByCapture(a) {
      if a.Create? { GoneBound(s); }
    } else {
      assert Touched(s, a) <= Owned(s);
    }
  }

  /** Steps that look at the closed list or change it; creating a session prints how long it is. */
  predicate UsesClosed(a: Action) {
    a.Create? || a.Push? || a.Pop?
  }

  function Thread(a: Action): Holder {
    if ByCapture(a) then Capture else Decoder
  }

  /** The thread that looks at the closed list holds the lock, if and only if it does not do so for
      printing its length. */
  lemma ClosedUnderLock(s: Pool, a: Action)
    requires Inv(s) && Enabled(s, a) && UsesClosed(a)
    ensures s.lock == Thread(a) <==> !a.Create?
  {
    hide Hash, Same, Keys, Numbers, Apart, Tabled;
  }

  /** So the two threads are never both at the list, but for a session that is being created. */
  lemma NeverBothAtClosed(s: Pool, a: Action, b: Action)
    requires Inv(s) && Enabled(s, a) && Enabled(s, b) && UsesClosed(a) && UsesClosed(b)
    requires ByCapture(a) && !ByCapture(b)
    ensures a.Create?
  {
    hide Inv, Enabled;
    if !a.Create? {
      ClosedUnderLock(s, a);
      ClosedUnderLock(s, b);
    }
  }

  /** Which happens: at the very first packet the decode thread may be about to pop. */
  lemma CreateBesidePop(id: Id)
    ensures Enabled(EMPTY, DecLock)
    ensures var s := Apply(EMPTY, DecLock); Inv(s) && Enabled(s, Create(id)) && Enabled(s, Pop)
  {
    hide Inv;
    InvEmpty();
    InvKept(EMPTY, DecLock);
  }

  /** How far a session has come: not created, active, closed, with the decoder, deleted. */
  function Progress(s: Pool, n: nat): nat {
    if n in s.freed then 4
    else if n in Owned(s) then 3
    else if n in s.closed then 2
    else if 1 <= n <= s.index then 1
    else 0
  }

  /** Every session is in exactly one place, but for the one whose table entry is about to be
      erased. */
  lemma OnePlace(s: Pool, n: nat)
    requires Inv(s) && 1 <= n <= s.index
    ensures (if n in s.freed then 1 else 0) + (if n in Owned(s) then 1 else 0) + (if n in InList(s) then 1 else 0) <= 1
    ensures n in s.active.Values && n in Gone(s) <==>
      exists key :: Lingers(s, key) && key in s.active && s.active[key] == n
    ensures n in s.active.Values || n in Gone(s)
  {
    hide Hash, Same;
  }

  /** No step takes a session back. */
  lemma OnlyForward(s: Pool, a: Action, n: nat)
    requires Inv(s) && Enabled(s, a)
    ensures Progress(Apply(s, a), n) >= Progress(s, n)
  {
    hide Hash, Same;
    if a.Pop? && s.closed != [] {
      assert s.closed == [s.closed[0]] + s.closed[1..];
    }
  }

  /** The states a run goes through. */
  ghost predicate IsRun(states: seq<Pool>, actions: seq<Action>) {
    && |states| == |actions| + 1 && states[0] == EMPTY
    && forall i :: 0 <= i < |actions| ==>
      Enabled(states[i], actions[i]) && states[i + 1] == Apply(states[i], actions[i])
  }

  lemma {:induction false} RunKeepsInv(states: seq<Pool>, actions: seq<Action>, i: nat)
    requires IsRun(states, actions) && i <= |actions|
    ensures Inv(states[i])
  {
    hide Inv, Enabled;
    if i == 0 {
      InvEmpty();
    } else {
      RunKeepsInv(states, actions, i - 1);
      InvKept(states[i - 1], actions[i - 1]);
    }
  }

  lemma {:induction false} RunOnlyForward(states: seq<Pool>, actions: seq<Action>, i: nat, j: nat, n: nat)
    requires IsRun(states, actions) && i <= j <= |actions|
    ensures Progress(states[j], n) >= Progress(states[i], n)
    decreases j - i
  {
    hide Inv, Enabled, Progress;
    if i < j {
      RunOnlyForward(states, actions, i, j - 1, n);
      RunKeepsInv(states, actions, j - 1);
      OnlyForward(states[j - 1], actions[j - 1], n);
    }
  }

  /** In every run, once a session has been posted the capture thread never touches it again,
      and once it has been deleted nobody does. */
  lemma NeverAfterPosting(states: seq<Pool>, actions: seq<Action>, i: nat, j: nat, n: nat)
    requires IsRun(states, actions) && i <= j < |actions| && n in Touched(states[j], actions[j])
    ensures ByCapture(actions[j]) ==> Progress(states[i], n) <= 1
    ensures Progress(states[i], n) <= 3
  {
    hide Inv, Enabled;
    RunKeepsInv(states, actions, j);
    RunOnlyForward(states, actions, i, j, n);
    TouchesOwn(states[j], actions[j]);
  }
}
