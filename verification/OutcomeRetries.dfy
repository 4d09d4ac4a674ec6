/** The requests of one route on its outcome ring: at most `inflight` at a time, each making one attempt
    and up to `budget` retries, on a ring of inflight x (1 + budget) slots.  Does a retry always find a
    free slot?  Only while the results of finished requests are drained. */
module OutcomeRetries {
  import opened Arith
  import opened Attempts
  import opened OutcomeRing

  /** Who uses the ring: `attempts` are the requests under way with the reservations each has made;
      `asking` are the threads inside TryReserve with the request they ask for; `owner` and `claims` say
      whose each handle and each claim is. */
  datatype Notes = Notes(
    next: nat, attempts: map<nat, nat>, asking: map<nat, nat>, owner: map<nat, nat>, claims: seq<nat>)

  datatype Book = Book(ring: Ring, inflight: nat, budget: nat, notes: Notes)

  /** Ask is the first step of TryReserve, Take its compare-exchange; every other step of the ring is
      its own. */
  datatype Move =
    | Begin
    | End(r: nat)
    | Ask(t: nat, r: nat)
    | Take(t: nat, o: nat, spurious: bool)
    | Other(step: Step)

  function Open(inflight: nat, budget: nat): Book {
    Book(Init(inflight * (budget + 1)), inflight, budget, Notes(0, map[], map[], map[], []))
  }

  /** A request under way with an attempt left. */
  predicate MayReserve(attempts: map<nat, nat>, budget: nat, r: nat) { r in attempts && attempts[r] <= budget }

  /** The handles among these that belong to a request. */
  function Ours(holders: set<nat>, owner: map<nat, nat>, r: nat): set<nat> {
    set o | o in holders && o in owner && owner[o] == r
  }

  /** A request asks for one reservation at a time and ends with none held. */
  predicate Can(b: Book, move: Move) {
    var n := b.notes;
    match move
    case Begin => |n.attempts| < b.inflight
    case End(r) => r in n.attempts && Ours(Holders(b.ring.handles), n.owner, r) == {} && r !in n.asking.Values
    case Ask(t, r) => Enabled(b.ring, TestAccepting(t)) && MayReserve(n.attempts, b.budget, r) && r !in n.asking.Values
    case Take(t, o, spurious) => Enabled(b.ring, CompareExchange(t, o, spurious)) && t in n.asking
    case Other(step) => Enabled(b.ring, step) && !step.TestAccepting? && !step.CompareExchange?
  }

  function Times(m: map<nat, nat>, r: nat): nat { if r in m then m[r] else 0 }

  predicate Grants(s: Ring, t: nat, spurious: bool) {
    && t in s.reserving && s.reserving[t].Loaded? && s.reserving[t].current > 0
    && s.available == s.reserving[t].current && !spurious
  }

  function NoteGrant(n: Notes, t: nat, o: nat): Notes
    requires t in n.asking
  {
    var r := n.asking[t];
    n.(asking := n.asking - {t}, owner := n.owner[o := r], attempts := n.attempts[r := Times(n.attempts, r) + 1])
  }

  function NoteLeft(n: Notes, t: nat): Notes { n.(asking := n.asking - {t}) }

  function NoteClaim(n: Notes, o: nat): Notes { n.(claims := n.claims + [Times(n.owner, o)]) }

  function NoteMove(n: Notes, from: nat, o: nat): Notes { n.(owner := n.owner[o := Times(n.owner, from)]) }

  /** The thread leaves TryReserve with or without a reservation, or goes round again. */
  function Taken(b: Book, t: nat, o: nat, spurious: bool): Book
    requires Can(b, Take(t, o, spurious))
  {
    var ring := ApplyCas(b.ring, t, o, spurious);
    b.(ring := ring,
       notes := if Grants(b.ring, t, spurious) then NoteGrant(b.notes, t, o)
                else if t !in ring.reserving then NoteLeft(b.notes, t)
                else b.notes)
  }

  function Stepped(b: Book, step: Step): Book
    requires Enabled(b.ring, step)
  {
    b.(ring := Apply(b.ring, step),
       notes := if step.ClaimHead? then NoteClaim(b.notes, step.o)
                else if step.MoveAssign? then NoteMove(b.notes, step.from, step.o)
                else b.notes)
  }

  function Asked(b: Book, t: nat, r: nat): Book
    requires Enabled(b.ring, TestAccepting(t))
  {
    b.(ring := Apply(b.ring, TestAccepting(t)),
       notes := if b.ring.accepting then b.notes.(asking := b.notes.asking[t := r]) else b.notes)
  }

  function Do(b: Book, move: Move): Book
    requires Can(b, move)
  {
    match move
    case Begin => b.(notes := b.notes.(next := b.notes.next + 1, attempts := b.notes.attempts[b.notes.next := 0]))
    case End(r) => b.(notes := b.notes.(attempts := b.notes.attempts - {r}))
    case Ask(t, r) => Asked(b, t, r)
    case Take(t, o, spurious) => Taken(b, t, o, spurious)
    case Other(step) => Stepped(b, step)
  }

  ghost predicate Follows(b: Book, moves: seq<Move>, b': Book)
    decreases |moves|
  {
    if moves == [] then b == b' else Can(b, moves[0]) && Follows(Do(b, moves[0]), moves[1..], b')
  }

  // ---------------------------------------------------------------- whose credits are out

  /** The first claim whose credit is not back: a result in the drain's hand still counts. */
  function First(s: Ring): int { s.tail - BetweenAdvanceAndReturn(s) }

  /** Every holder belongs to a request under way, and no such request has more credits out than attempts
      made, nor more attempts than allowed.  `s` are the requests of the undrained claims. */
  ghost predicate Accounts(holders: set<nat>, owner: map<nat, nat>, s: seq<nat>, attempts: map<nat, nat>, most: nat) {
    && (forall o :: o in holders ==> o in owner && owner[o] in attempts)
    && forall r :: r in attempts ==> attempts[r] <= most && |Ours(holders, owner, r)| + multiset(s)[r] <= attempts[r]
  }

  /** Requests and claims so far have numbers below `next`. */
  ghost predicate Numbered(attempts: map<nat, nat>, claims: seq<nat>, next: nat) {
    (forall r :: r in attempts ==> r < next) && forall c :: 0 <= c < |claims| ==> claims[c] < next
  }

  /** At most one thread asks for a request, and only while it has an attempt left. */
  ghost predicate AskingOk(asking: map<nat, nat>, attempts: map<nat, nat>, budget: nat) {
    && (forall t :: t in asking ==> MayReserve(attempts, budget, asking[t]))
    && (forall t, u :: t in asking && u in asking && t != u ==> asking[t] != asking[u])
  }

  /** The notes are right about these holders, with the credits of the claims from `first` on not back. */
  ghost predicate Honest(n: Notes, holders: set<nat>, first: int, budget: nat) {
    && Numbered(n.attempts, n.claims, n.next) && AskingOk(n.asking, n.attempts, budget)
    && 0 <= first <= |n.claims| && Accounts(holders, n.owner, n.claims[first..], n.attempts, budget + 1)
  }

  /** The claims match the ring, and the ring has a slot for every attempt. */
  ghost predicate Sized(b: Book) {
    && Balanced(b.ring) && b.ring.capacity == b.inflight * (b.budget + 1)
    && |b.notes.claims| == b.ring.head && |b.notes.attempts| <= b.inflight
  }

  ghost predicate Kept(b: Book) {
    Sized(b) && Honest(b.notes, Holders(b.ring.handles), First(b.ring), b.budget)
  }

  // ---------------------------------------------------------------- a crowd of requests

  /** The sequence without the entries of one request. */
  function Without(s: seq<nat>, r: nat): seq<nat> {
    if s == [] then [] else if s[0] == r then Without(s[1..], r) else [s[0]] + Without(s[1..], r)
  }

  lemma {:induction false} WithoutKeeps(s: seq<nat>, r: nat, q: nat)
    ensures |s| == |Without(s, r)| + multiset(s)[r]
    ensures q != r ==> multiset(Without(s, r))[q] == multiset(s)[q]
    ensures forall x :: x in Without(s, r) ==> x in s && x != r
  {
    if s != [] {
      assert s == [s[0]] + s[1..];
      WithoutKeeps(s[1..], r, q);
    }
  }

  /** Every undrained claim belongs to a request under way. */
  ghost predicate AllUnderWay(s: seq<nat>, attempts: map<nat, nat>) { forall x :: x in s ==> x in attempts }

  lemma WithoutOne(holders: set<nat>, owner: map<nat, nat>, s: seq<nat>, attempts: map<nat, nat>, most: nat, r: nat)
    requires Accounts(holders, owner, s, attempts, most) && AllUnderWay(s, attempts) && r in attempts
    ensures Accounts(holders - Ours(holders, owner, r), owner, Without(s, r), attempts - {r}, most)
    ensures AllUnderWay(Without(s, r), attempts - {r})
    ensures |holders| + |s| <= |holders - Ours(holders, owner, r)| + |Without(s, r)| + attempts[r]
  {
    var ours := Ours(holders, owner, r);
    WithoutKeeps(s, r, r);
    assert ours <= holders && |holders - ours| == |holders| - |ours|;
    forall q | q in attempts - {r}
      ensures |Ours(holders - ours, owner, q)| + multiset(Without(s, r))[q] <= attempts[q]
    {
      WithoutKeeps(s, r, q);
      assert Ours(holders - ours, owner, q) == Ours(holders, owner, q);
    }
  }

  /** All credits of requests with at most `most` attempts each. */
  lemma {:induction false} Crowd(holders: set<nat>, owner: map<nat, nat>, s: seq<nat>, attempts: map<nat, nat>, most: nat)
    requires Accounts(holders, owner, s, attempts, most) && AllUnderWay(s, attempts)
    ensures |holders| + |s| <= most * |attempts|
    decreases |attempts|
  {
    if attempts == map[] {
      Nobody(holders, owner, s, most);
    } else {
      var r :| r in attempts;
      var rest := attempts - {r};
      WithoutOne(holders, owner, s, attempts, most, r);
      Crowd(holders - Ours(holders, owner, r), owner, Without(s, r), rest, most);
      assert |attempts| == |rest| + 1;
      MulSplit(most, |rest|, 1);
    }
  }

  lemma Nobody(holders: set<nat>, owner: map<nat, nat>, s: seq<nat>, most: nat)
    requires Accounts(holders, owner, s, map[], most) && AllUnderWay(s, map[])
    ensures holders == {} && s == []
  {
    assert multiset(s) == multiset{};
    assert |multiset(s)| == |s|;
  }

  /** Requests under way, one of them with an attempt left, cannot use up the ring by themselves. */
  lemma RoomForOneMore(holders: set<nat>, owner: map<nat, nat>, s: seq<nat>, attempts: map<nat, nat>, r: nat,
                       inflight: nat, budget: nat)
    requires Accounts(holders, owner, s, attempts, budget + 1) && AllUnderWay(s, attempts)
    requires |attempts| <= inflight && MayReserve(attempts, budget, r)
    ensures |holders| + |s| < inflight * (budget + 1)
  {
    var rest, most := attempts - {r}, budget + 1;
    WithoutOne(holders, owner, s, attempts, most, r);
    Crowd(holders - Ours(holders, owner, r), owner, Without(s, r), rest, most);
    assert |attempts| == |rest| + 1;
    BelowProduct(|holders| + |s|, |rest|, inflight, budget);
  }

  lemma BelowProduct(used: nat, n: nat, inflight: nat, budget: nat)
    requires n < inflight && used <= (budget + 1) * n + budget
    ensures used < inflight * (budget + 1)
  {
    MulMonotone(n, inflight - 1, budget + 1);
    assert (inflight - 1) * (budget + 1) == inflight * (budget + 1) - (budget + 1);
  }

  /** A finished request's result is claimed and its credit not back. */
  ghost predicate Lags(b: Book) {
    exists c :: 0 <= c < |b.notes.claims| && First(b.ring) <= c && b.notes.claims[c] !in b.notes.attempts
  }

  /** Without credit for a request that may still reserve, some finished request's result is undrained. */
  lemma EmptyMeansLag(b: Book, r: nat)
    requires Kept(b) && MayReserve(b.notes.attempts, b.budget, r) && b.ring.available == 0
    ensures Lags(b)
  {
    if !Lags(b) {
      var n := b.notes;
      var s := n.claims[First(b.ring)..];
      forall i | 0 <= i < |s| ensures s[i] in n.attempts { assert n.claims[First(b.ring) + i] == s[i]; }
      RoomForOneMore(Holders(b.ring.handles), n.owner, s, n.attempts, r, b.inflight, b.budget);
    }
  }

  // ---------------------------------------------------------------- the accounts, move by move

  lemma {:induction false} Smaller(a: set<nat>, b: set<nat>)
    requires a <= b
    ensures |a| <= |b|
    decreases a
  {
    if a != {} {
      var x :| x in a;
      Smaller(a - {x}, b - {x});
    }
  }

  lemma AccountsFewer(holders: set<nat>, fewer: set<nat>, owner: map<nat, nat>, claims: seq<nat>, i: nat, j: nat,
                      attempts: map<nat, nat>, most: nat)
    requires i <= j <= |claims| && fewer <= holders && Accounts(holders, owner, claims[i..], attempts, most)
    ensures Accounts(fewer, owner, claims[j..], attempts, most)
  {
    assert claims[i..] == claims[i..j] + claims[j..];
    forall r | r in attempts ensures |Ours(fewer, owner, r)| + multiset(claims[j..])[r] <= attempts[r] {
      Smaller(Ours(fewer, owner, r), Ours(holders, owner, r));
    }
  }

  lemma AccountsBegin(holders: set<nat>, owner: map<nat, nat>, s: seq<nat>, attempts: map<nat, nat>, most: nat, next: nat)
    requires Accounts(holders, owner, s, attempts, most) && next !in attempts && next !in s
    ensures Accounts(holders, owner, s, attempts[next := 0], most)
  {
    assert Ours(holders, owner, next) == {};
  }

  lemma AccountsEnd(holders: set<nat>, owner: map<nat, nat>, s: seq<nat>, attempts: map<nat, nat>, most: nat, r: nat)
    requires Accounts(holders, owner, s, attempts, most) && Ours(holders, owner, r) == {}
    ensures Accounts(holders, owner, s, attempts - {r}, most)
  {
    forall o | o in holders ensures owner[o] in attempts - {r} { assert o !in Ours(holders, owner, r); }
  }

  lemma AccountsGrant(holders: set<nat>, owner: map<nat, nat>, s: seq<nat>, attempts: map<nat, nat>, most: nat, o: nat, r: nat)
    requires Accounts(holders, owner, s, attempts, most) && o !in holders && r in attempts && attempts[r] < most
    ensures Accounts(holders + {o}, owner[o := r], s, attempts[r := attempts[r] + 1], most)
  {
    var more := attempts[r := attempts[r] + 1];
    forall q | q in more
      ensures more[q] <= most && |Ours(holders + {o}, owner[o := r], q)| + multiset(s)[q] <= more[q]
    {
      OursAfterGrant(holders, owner, o, r, q);
    }
  }

  lemma OursAfterGrant(holders: set<nat>, owner: map<nat, nat>, o: nat, r: nat, q: nat)
    requires o !in holders
    ensures |Ours(holders + {o}, owner[o := r], q)| == |Ours(holders, owner, q)| + (if q == r then 1 else 0)
  {
    var was, now := Ours(holders, owner, q), Ours(holders + {o}, owner[o := r], q);
    assert now == if q == r then was + {o} else was;
  }

  lemma AccountsClaim(holders: set<nat>, owner: map<nat, nat>, s: seq<nat>, attempts: map<nat, nat>, most: nat, o: nat)
    requires Accounts(holders, owner, s, attempts, most) && o in holders
    ensures Accounts(holders - {o}, owner, s + [owner[o]], attempts, most)
  {
    forall q | q in attempts
      ensures |Ours(holders - {o}, owner, q)| + multiset(s + [owner[o]])[q] <= attempts[q]
    {
      var was, now := Ours(holders, owner, q), Ours(holders - {o}, owner, q);
      assert now == if q == owner[o] then was - {o} else was;
    }
  }

  /** `o` gives up what it held and takes over what `from` held. */
  function Handed(holders: set<nat>, from: nat, o: nat): set<nat> {
    holders - {o} - {from} + (if from in holders then {o} else {})
  }

  lemma AccountsMove(holders: set<nat>, owner: map<nat, nat>, s: seq<nat>, attempts: map<nat, nat>, most: nat, from: nat, o: nat)
    requires Accounts(holders, owner, s, attempts, most) && from != o
    ensures Accounts(Handed(holders, from, o), owner[o := Times(owner, from)], s, attempts, most)
  {
    forall q | q in attempts
      ensures |Ours(Handed(holders, from, o), owner[o := Times(owner, from)], q)| <= |Ours(holders, owner, q)|
    {
      HandedFewer(holders, owner, from, o, q);
    }
  }

  lemma HandedFewer(holders: set<nat>, owner: map<nat, nat>, from: nat, o: nat, q: nat)
    requires from != o && (from in holders ==> from in owner)
    ensures |Ours(Handed(holders, from, o), owner[o := Times(owner, from)], q)| <= |Ours(holders, owner, q)|
  {
    var was, now := Ours(holders, owner, q), Ours(Handed(holders, from, o), owner[o := Times(owner, from)], q);
    if o in now {
      assert from in was && now - {o} <= was - {from};
      Smaller(now - {o}, was - {from});
    } else {
      Smaller(now, was);
    }
  }

  // ---------------------------------------------------------------- the notes, move by move

  lemma HonestFewer(n: Notes, holders: set<nat>, first: int, fewer: set<nat>, later: int, budget: nat)
    requires Honest(n, holders, first, budget) && fewer <= holders && first <= later <= |n.claims|
    ensures Honest(n, fewer, later, budget)
  {
    AccountsFewer(holders, fewer, n.owner, n.claims, first, later, n.attempts, budget + 1);
  }

  lemma HonestBegin(n: Notes, holders: set<nat>, first: int, budget: nat)
    requires Honest(n, holders, first, budget)
    ensures Honest(n.(next := n.next + 1, attempts := n.attempts[n.next := 0]), holders, first, budget)
  {
    AccountsBegin(holders, n.owner, n.claims[first..], n.attempts, budget + 1, n.next);
  }

  lemma HonestEnd(n: Notes, holders: set<nat>, first: int, budget: nat, r: nat)
    requires Honest(n, holders, first, budget) && Ours(holders, n.owner, r) == {} && r !in n.asking.Values
    ensures Honest(n.(attempts := n.attempts - {r}), holders, first, budget)
  {
    AccountsEnd(holders, n.owner, n.claims[first..], n.attempts, budget + 1, r);
    forall t | t in n.asking ensures n.asking[t] != r { assert n.asking[t] in n.asking.Values; }
  }

  lemma HonestAsk(n: Notes, holders: set<nat>, first: int, budget: nat, t: nat, r: nat)
    requires Honest(n, holders, first, budget) && MayReserve(n.attempts, budget, r) && r !in n.asking.Values
    ensures Honest(n.(asking := n.asking[t := r]), holders, first, budget)
  {
    forall u | u in n.asking ensures n.asking[u] != r { assert n.asking[u] in n.asking.Values; }
  }

  lemma HonestGrant(n: Notes, holders: set<nat>, first: int, budget: nat, t: nat, o: nat)
    requires Honest(n, holders, first, budget) && t in n.asking && o !in holders
    ensures Honest(NoteGrant(n, t, o), holders + {o}, first, budget)
    ensures |NoteGrant(n, t, o).attempts| == |n.attempts|
  {
    var r := n.asking[t];
    AccountsGrant(holders, n.owner, n.claims[first..], n.attempts, budget + 1, o, r);
    assert NoteGrant(n, t, o).attempts.Keys == n.attempts.Keys;
  }

  lemma HonestClaim(n: Notes, holders: set<nat>, first: int, budget: nat, o: nat)
    requires Honest(n, holders, first, budget) && o in holders
    ensures Honest(NoteClaim(n, o), holders - {o}, first, budget)
  {
    AccountsClaim(holders, n.owner, n.claims[first..], n.attempts, budget + 1, o);
    assert (n.claims + [n.owner[o]])[first..] == n.claims[first..] + [n.owner[o]];
    assert n.owner[o] < n.next;
  }

  lemma HonestMove(n: Notes, holders: set<nat>, first: int, budget: nat, from: nat, o: nat)
    requires Honest(n, holders, first, budget) && from != o
    ensures Honest(NoteMove(n, from, o), Handed(holders, from, o), first, budget)
  {
    AccountsMove(holders, n.owner, n.claims[first..], n.attempts, budget + 1, from, o);
  }

  // ---------------------------------------------------------------- every move keeps the book

  lemma OpenKept(inflight: nat, budget: nat)
    requires inflight > 0
    ensures Kept(Open(inflight, budget))
  {
    var b := Open(inflight, budget);
    MulAtLeast(inflight, budget + 1);
    assert Holders(b.ring.handles) == {} && Flying(b.ring.handles) == {} && ReadySlots(b.ring.slots) == {};
  }

  /** The ring stays balanced; claims and returned credits only grow. */
  ghost predicate Onward(s: Ring, ring: Ring) {
    Balanced(ring) && ring.capacity == s.capacity && ring.head >= s.head && First(ring) >= First(s)
  }

  lemma GrantedRing(s: Ring, t: nat, o: nat)
    requires Balanced(s) && Enabled(s, CompareExchange(t, o, false)) && Grants(s, t, false)
    ensures var ring := ApplyCas(s, t, o, false);
            && Onward(s, ring) && ring.head == s.head && First(ring) == First(s)
            && o !in Holders(s.handles) && Holders(ring.handles) == Holders(s.handles) + {o}
  {
    BalancedStep(s, CompareExchange(t, o, false));
  }

  lemma RefusedRing(s: Ring, t: nat, o: nat, spurious: bool)
    requires Balanced(s) && Enabled(s, CompareExchange(t, o, spurious)) && !Grants(s, t, spurious)
    ensures var ring := ApplyCas(s, t, o, spurious);
            Onward(s, ring) && ring.head == s.head && First(ring) == First(s) && ring.handles == s.handles
  {
    BalancedStep(s, CompareExchange(t, o, spurious));
  }

  lemma ClaimedRing(s: Ring, o: nat)
    requires Balanced(s) && Enabled(s, ClaimHead(o))
    ensures var ring := Apply(s, ClaimHead(o));
            && Onward(s, ring) && ring.head == s.head + 1 && First(ring) == First(s)
            && o in Holders(s.handles) && Holders(ring.handles) == Holders(s.handles) - {o}
  {
    BalancedStep(s, ClaimHead(o));
  }

  lemma MovedRing(s: Ring, from: nat, o: nat)
    requires Balanced(s) && Enabled(s, MoveAssign(from, o))
    ensures var ring := ApplyMove(s, from, o);
            && Onward(s, ring) && ring.head == s.head && First(ring) == First(s)
            && Holders(ring.handles) == Handed(Holders(s.handles), from, o)
  {
    BalancedStep(s, MoveAssign(from, o));
    MovedHolders(s.handles, from, o);
  }

  lemma MovedHolders(handles: map<nat, Handle>, from: nat, o: nat)
    requires from != o
    ensures Holders(handles[o := Empty][o := HandleOf(handles, from)][from := Empty]) == Handed(Holders(handles), from, o)
  {
  }

  lemma HandleRing(s: Ring, step: Step)
    requires Balanced(s) && Enabled(s, step)
    requires step.BeginPublish? || step.CheckTail? || step.WriteValue? || step.StoreReady? || step.SignalWake? || step.Finalize?
    ensures var ring := Apply(s, step);
            Onward(s, ring) && ring.head == s.head && Holders(ring.handles) <= Holders(s.handles)
  {
    BalancedStep(s, step);
  }

  lemma DrainRing(s: Ring, step: Step)
    requires Balanced(s) && Enabled(s, step)
    requires step.LoadCredit? || step.BeginStopping? || step.StartDrain? || step.Look? || step.ReadValue?
             || step.ClearReady? || step.ClearValue? || step.AdvanceTail? || step.Deliver? || step.ReturnCredit?
             || step.TestAccepting?
    ensures var ring := Apply(s, step); Onward(s, ring) && ring.head == s.head && ring.handles == s.handles
  {
    BalancedStep(s, step);
  }

  /** Every other step of the ring adds no holder and no claim. */
  lemma QuietRing(s: Ring, step: Step)
    requires Balanced(s) && Enabled(s, step) && !step.CompareExchange? && !step.ClaimHead? && !step.MoveAssign?
    ensures var ring := Apply(s, step);
            Onward(s, ring) && ring.head == s.head && Holders(ring.handles) <= Holders(s.handles)
  {
    if step.BeginPublish? || step.CheckTail? || step.WriteValue? || step.StoreReady? || step.SignalWake? || step.Finalize? {
      HandleRing(s, step);
    } else {
      DrainRing(s, step);
    }
  }

  /** New notes for a new ring. */
  lemma KeptBy(b: Book, ring: Ring, notes: Notes)
    requires Kept(b) && Onward(b.ring, ring) && |notes.claims| == ring.head && |notes.attempts| <= b.inflight
    requires Honest(notes, Holders(ring.handles), First(ring), b.budget)
    ensures Kept(b.(ring := ring, notes := notes))
  {
  }

  lemma KeptQuiet(b: Book, ring: Ring)
    requires Kept(b) && Onward(b.ring, ring) && ring.head == b.ring.head
    requires Holders(ring.handles) <= Holders(b.ring.handles)
    ensures Kept(b.(ring := ring))
  {
    HonestFewer(b.notes, Holders(b.ring.handles), First(b.ring), Holders(ring.handles), First(ring), b.budget);
    KeptBy(b, ring, b.notes);
  }

  lemma KeptRequest(b: Book, move: Move)
    requires Kept(b) && Can(b, move) && (move.Begin? || move.End?)
    ensures Kept(Do(b, move))
  {
    var n, holders, first := b.notes, Holders(b.ring.handles), First(b.ring);
    if move.Begin? {
      HonestBegin(n, holders, first, b.budget);
    } else {
      HonestEnd(n, holders, first, b.budget, move.r);
      assert |n.attempts - {move.r}| == |n.attempts| - 1;
    }
    KeptBy(b, b.ring, Do(b, move).notes);
  }

  lemma KeptAsk(b: Book, t: nat, r: nat)
    requires Kept(b) && Can(b, Ask(t, r))
    ensures Kept(Asked(b, t, r))
  {
    var ring := Apply(b.ring, TestAccepting(t));
    QuietRing(b.ring, TestAccepting(t));
    KeptQuiet(b, ring);
    if b.ring.accepting {
      HonestAsk(b.notes, Holders(ring.handles), First(ring), b.budget, t, r);
      KeptBy(b, ring, b.notes.(asking := b.notes.asking[t := r]));
    }
  }

  lemma KeptGrant(b: Book, t: nat, o: nat)
    requires Kept(b) && Can(b, Take(t, o, false)) && Grants(b.ring, t, false)
    ensures Kept(Taken(b, t, o, false))
  {
    GrantedRing(b.ring, t, o);
    HonestGrant(b.notes, Holders(b.ring.handles), First(b.ring), b.budget, t, o);
    KeptBy(b, ApplyCas(b.ring, t, o, false), NoteGrant(b.notes, t, o));
  }

  lemma KeptRefusal(b: Book, t: nat, o: nat, spurious: bool)
    requires Kept(b) && Can(b, Take(t, o, spurious)) && !Grants(b.ring, t, spurious)
    ensures Kept(Taken(b, t, o, spurious))
  {
    var ring := ApplyCas(b.ring, t, o, spurious);
    RefusedRing(b.ring, t, o, spurious);
    KeptQuiet(b, ring);
    if t !in ring.reserving { KeptBy(b, ring, NoteLeft(b.notes, t)); }
  }

  lemma KeptTake(b: Book, t: nat, o: nat, spurious: bool)
    requires Kept(b) && Can(b, Take(t, o, spurious))
    ensures Kept(Taken(b, t, o, spurious))
  {
    if Grants(b.ring, t, spurious) { KeptGrant(b, t, o); } else { KeptRefusal(b, t, o, spurious); }
  }

  lemma KeptClaim(b: Book, o: nat)
    requires Kept(b) && Can(b, Other(ClaimHead(o)))
    ensures Kept(Stepped(b, ClaimHead(o)))
  {
    ClaimedRing(b.ring, o);
    HonestClaim(b.notes, Holders(b.ring.handles), First(b.ring), b.budget, o);
    KeptBy(b, Apply(b.ring, ClaimHead(o)), NoteClaim(b.notes, o));
  }

  lemma KeptMove(b: Book, from: nat, o: nat)
    requires Kept(b) && Can(b, Other(MoveAssign(from, o)))
    ensures Kept(Stepped(b, MoveAssign(from, o)))
  {
    MovedRing(b.ring, from, o);
    HonestMove(b.notes, Holders(b.ring.handles), First(b.ring), b.budget, from, o);
    KeptBy(b, ApplyMove(b.ring, from, o), NoteMove(b.notes, from, o));
  }

  lemma KeptStep(b: Book, step: Step)
    requires Kept(b) && Can(b, Other(step))
    ensures Kept(Stepped(b, step))
  {
    if step.ClaimHead? {
      KeptClaim(b, step.o);
    } else if step.MoveAssign? {
      KeptMove(b, step.from, step.o);
    } else {
      QuietRing(b.ring, step);
      KeptQuiet(b, Apply(b.ring, step));
    }
  }

  lemma KeptMoves(b: Book, move: Move)
    requires Kept(b) && Can(b, move)
    ensures Kept(Do(b, move))
  {
    match move
    case Begin => KeptRequest(b, move);
    case End(r) => KeptRequest(b, move);
    case Ask(t, r) => KeptAsk(b, t, r);
    case Take(t, o, spurious) => KeptTake(b, t, o, spurious);
    case Other(step) => KeptStep(b, step);
  }

  lemma {:induction false} FollowsKept(b: Book, moves: seq<Move>, b': Book)
    requires Kept(b) && Follows(b, moves, b')
    ensures Kept(b')
    decreases |moves|
  {
    if moves != [] {
      KeptMoves(b, moves[0]);
      FollowsKept(Do(b, moves[0]), moves[1..], b');
    }
  }

  /** In every run a thread that asks for a request under way, first attempt or retry, finds the ring empty
      of credit only while the result of a finished request is claimed and undrained. */
  lemma NoCreditOnlyByLag(inflight: nat, budget: nat, moves: seq<Move>, b: Book, t: nat)
    requires inflight > 0 && Follows(Open(inflight, budget), moves, b)
    requires t in b.notes.asking && b.ring.available == 0
    ensures Lags(b)
  {
    OpenKept(inflight, budget);
    FollowsKept(Open(inflight, budget), moves, b);
    EmptyMeansLag(b, b.notes.asking[t]);
  }

  // ---------------------------------------------------------------- a retry that is refused

  ghost predicate Reaches(inflight: nat, budget: nat, b: Book) { exists moves :: Follows(Open(inflight, budget), moves, b) }

  lemma {:induction false} FollowsOn(b: Book, moves: seq<Move>, m: Book, move: Move)
    requires Follows(b, moves, m) && Can(m, move)
    ensures Follows(b, moves + [move], Do(m, move))
    decreases |moves|
  {
    if moves == [] {
      assert Follows(Do(m, move), [], Do(m, move));
    } else {
      FollowsOn(Do(b, moves[0]), moves[1..], m, move);
      assert (moves + [move])[1..] == moves[1..] + [move];
    }
  }

  lemma Further(inflight: nat, budget: nat, m: Book, move: Move) returns (b: Book)
    requires Reaches(inflight, budget, m) && Can(m, move)
    ensures b == Do(m, move) && Reaches(inflight, budget, b)
  {
    var moves :| Follows(Open(inflight, budget), moves, m);
    FollowsOn(Open(inflight, budget), moves, m, move);
    b := Do(m, move);
  }

  /** k results published, none drained, nobody inside TryReserve. */
  predicate Backlog(s: Ring, capacity: nat, k: nat) {
    && s.capacity == capacity && |s.slots| == capacity && k <= capacity < WRAP && s.available == capacity - k
    && s.accepting && !s.terminated && s.head == k && s.tail == 0 && s.drain.Idle?
    && s.reserving == map[] && HandleOf(s.handles, 0).Empty?
  }

  /** The request reserves into handle 0. */
  lemma ReserveOnce(b: Book, r: nat, capacity: nat, k: nat) returns (b': Book)
    requires Reaches(b.inflight, b.budget, b) && Backlog(b.ring, capacity, k) && k < capacity
    requires MayReserve(b.notes.attempts, b.budget, r) && b.notes.asking == map[]
    ensures Reaches(b.inflight, b.budget, b')
    ensures b' == b.(ring := b.ring.(available := capacity - k - 1, handles := b.ring.handles[0 := Live]), notes := b'.notes)
    ensures b'.notes.asking == map[] && b'.notes.attempts == b.notes.attempts[r := b.notes.attempts[r] + 1]
  {
    var b1 := Further(b.inflight, b.budget, b, Ask(0, r));
    assert b1.ring == b.ring.(reserving := map[0 := PastAccepting]) && b1.notes.asking == map[0 := r];
    var b2 := Further(b.inflight, b.budget, b1, Other(LoadCredit(0)));
    assert b2.ring == b.ring.(reserving := map[0 := Loaded(capacity - k)]) && b2.notes == b1.notes;
    b' := Further(b.inflight, b.budget, b2, Take(0, 0, false));
    assert b2.ring.reserving - {0} == map[] && b1.notes.asking - {0} == map[];
  }

  /** Claim and check: the distance from the tail is below the capacity. */
  lemma ClaimOnce(b: Book, capacity: nat, k: nat, result: AttemptResult) returns (b': Book)
    requires Reaches(b.inflight, b.budget, b) && 0 < capacity < WRAP && k < capacity
    requires b.ring.capacity == capacity == |b.ring.slots| && !b.ring.terminated && b.ring.head == k && b.ring.tail == 0
    requires HandleOf(b.ring.handles, 0) == Live
    ensures Reaches(b.inflight, b.budget, b')
    ensures b' == b.(ring := b.ring.(head := k + 1, log := b'.ring.log, handles := b.ring.handles[0 := Checked(k, result)]),
                     notes := NoteClaim(b.notes, 0))
  {
    var b1 := Further(b.inflight, b.budget, b, Other(BeginPublish(0, result)));
    assert b1.ring == b.ring.(handles := b.ring.handles[0 := Claiming(result)]) && b1.notes == b.notes;
    var b2 := Further(b.inflight, b.budget, b1, Other(ClaimHead(0)));
    assert b2.ring.handles == b.ring.handles[0 := Claimed(k, result)];
    ModSmall(k, WRAP);
    b' := Further(b.inflight, b.budget, b2, Other(CheckTail(0)));
    assert b'.ring.handles == b.ring.handles[0 := Checked(k, result)];
  }

  /** Write the value and mark its slot ready. */
  lemma StoreOnce(b: Book, capacity: nat, k: nat, result: AttemptResult) returns (b': Book)
    requires Reaches(b.inflight, b.budget, b) && 0 < capacity && HandleOf(b.ring.handles, 0) == Checked(k, result)
    requires b.ring.capacity == capacity == |b.ring.slots| && !b.ring.terminated
    ensures Reaches(b.inflight, b.budget, b')
    ensures b' == b.(ring := b.ring.(slots := b'.ring.slots, handles := b.ring.handles[0 := Signalling(k)]))
    ensures |b'.ring.slots| == capacity
  {
    var b1 := Further(b.inflight, b.budget, b, Other(WriteValue(0)));
    b' := Further(b.inflight, b.budget, b1, Other(StoreReady(0)));
    assert b'.ring.handles == b.ring.handles[0 := Signalling(k)];
  }

  /** Wake the coordinator and let go of the handle. */
  lemma LetGo(b: Book, capacity: nat, k: nat) returns (b': Book)
    requires Reaches(b.inflight, b.budget, b) && 0 < capacity && HandleOf(b.ring.handles, 0) == Signalling(k)
    requires b.ring.capacity == capacity == |b.ring.slots| && !b.ring.terminated
    ensures Reaches(b.inflight, b.budget, b')
    ensures b' == b.(ring := b.ring.(wake := true, handles := b.ring.handles[0 := Empty]))
  {
    var b1 := Further(b.inflight, b.budget, b, Other(SignalWake(0)));
    assert b1.ring.handles == b.ring.handles[0 := Published];
    b' := Further(b.inflight, b.budget, b1, Other(Finalize(0)));
    assert b'.ring.handles == b.ring.handles[0 := Empty];
  }

  /** One attempt of a request under way, its result left in the ring. */
  lemma Attempted(b: Book, r: nat, capacity: nat, k: nat) returns (b': Book)
    requires Reaches(b.inflight, b.budget, b) && Backlog(b.ring, capacity, k) && k < capacity
    requires MayReserve(b.notes.attempts, b.budget, r) && b.notes.asking == map[]
    ensures Reaches(b.inflight, b.budget, b') && Backlog(b'.ring, capacity, k + 1)
    ensures b'.inflight == b.inflight && b'.budget == b.budget && b'.notes.asking == map[]
    ensures b'.notes.attempts == b.notes.attempts[r := b.notes.attempts[r] + 1]
    ensures Holders(b'.ring.handles) == Holders(b.ring.handles)
  {
    var result := AttemptResult(0, 0, AttemptPermit(false, 1, 0), false);
    b' := ReserveOnce(b, r, capacity, k);
    b' := ClaimOnce(b', capacity, k, result);
    b' := StoreOnce(b', capacity, k, result);
    b' := LetGo(b', capacity, k);
  }

  lemma Started(b: Book) returns (b': Book)
    requires Reaches(b.inflight, b.budget, b) && b.notes.attempts == map[] && b.inflight > 0
    ensures Reaches(b.inflight, b.budget, b')
    ensures b' == b.(notes := b.notes.(next := b.notes.next + 1, attempts := map[b.notes.next := 0]))
  {
    b' := Further(b.inflight, b.budget, b, Begin);
  }

  /** k requests, one after another, each with one attempt; their results all wait in the ring. */
  lemma {:induction false} Lagging(inflight: nat, budget: nat, k: nat) returns (b: Book)
    requires inflight > 0 && inflight * (budget + 1) < WRAP && k < inflight * (budget + 1)
    ensures Reaches(inflight, budget, b) && Backlog(b.ring, inflight * (budget + 1), k)
    ensures b.inflight == inflight && b.budget == budget && b.notes.attempts == map[] && b.notes.asking == map[]
    ensures Holders(b.ring.handles) == {}
  {
    if k == 0 {
      b := Open(inflight, budget);
      assert Follows(b, [], b);
    } else {
      b := Lagging(inflight, budget, k - 1);
      var r := b.notes.next;
      b := Started(b);
      b := Attempted(b, r, inflight * (budget + 1), k - 1);
      b := Further(inflight, budget, b, End(r));
      assert b.notes.attempts == map[];
    }
  }

  /** With retries allowed, whatever the number of requests at a time, a run in which a retry is refused:
      the drain has not come round since the first request. */
  lemma RetryRefused(inflight: nat, budget: nat) returns (b: Book, r: nat)
    requires inflight > 0 && budget > 0 && inflight * (budget + 1) < WRAP
    ensures Reaches(inflight, budget, b) && Can(b, Take(0, 0, false)) && b.notes.asking[0] == r
    ensures r in b.notes.attempts && b.notes.attempts[r] == 1 && b.ring.available == 0 && b.ring.accepting
    ensures Do(b, Take(0, 0, false)).ring.rejected == b.ring.rejected + 1
  {
    var capacity := inflight * (budget + 1);
    MulAtLeast(inflight, budget + 1);
    b := Lagging(inflight, budget, capacity - 1);
    r := b.notes.next;
    b := Started(b);
    b := Attempted(b, r, capacity, capacity - 1);
    b := Further(inflight, budget, b, Ask(0, r));
    b := Further(inflight, budget, b, Other(LoadCredit(0)));
  }

  ghost predicate RetryCanFail(inflight: nat, budget: nat) {
    exists b, t :: Reaches(inflight, budget, b) && RetryWithoutCredit(b, t)
  }

  /** A thread asks for a further attempt of a request and there is no credit. */
  predicate RetryWithoutCredit(b: Book, t: nat) {
    && t in b.notes.asking && b.notes.asking[t] in b.notes.attempts && b.notes.attempts[b.notes.asking[t]] > 0
    && b.ring.available == 0 && b.ring.accepting
  }

  /** The promise that a retry never finds the ring full holds exactly where there are no retries. */
  lemma RetryCanFailIff(inflight: nat, budget: nat)
    requires inflight > 0 && inflight * (budget + 1) < WRAP
    ensures RetryCanFail(inflight, budget) <==> budget > 0
  {
    if budget > 0 {
      var b, r := RetryRefused(inflight, budget);
      assert RetryWithoutCredit(b, 0);
    } else if b, t :| Reaches(inflight, budget, b) && RetryWithoutCredit(b, t) {
      var moves :| Follows(Open(inflight, budget), moves, b);
      OpenKept(inflight, budget);
      FollowsKept(Open(inflight, budget), moves, b);
      SameLimits(Open(inflight, budget), moves, b);
    }
  }

  lemma {:induction false} SameLimits(b: Book, moves: seq<Move>, b': Book)
    requires Follows(b, moves, b')
    ensures b'.inflight == b.inflight && b'.budget == b.budget
    decreases |moves|
  {
    if moves != [] { SameLimits(Do(b, moves[0]), moves[1..], b'); }
  }
}
