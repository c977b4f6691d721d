/** The kernel's gas bank (nub-arch-x86 `task.rs`): one live balance, many banked
    ones, swapped when the active meter changes.

    A scope is a meter key, or `None` for the host budget. */
module GasBank {
  import opened Prelude

  datatype Bank<K> = Bank(meters: map<K, int>, live: int, host: int, root: Option<K>, active: Option<K>)

  /** Stored balance of a scope; a meter never seen holds 0. */
  function Stored<K>(b: Bank<K>, scope: Option<K>): int {
    match scope
    case Some(k) => if k in b.meters then b.meters[k] else 0
    case None => b.host
  }

  /** What a scope really has: the live gas if it is active. */
  function Balance<K(==)>(b: Bank<K>, scope: Option<K>): int {
    if scope == b.active then b.live else Stored(b, scope)
  }

  function New<K>(root: Option<K>, gas: int): Bank<K> {
    Bank(match root case Some(k) => map[k := gas] case None => map[], gas, gas, root, root)
  }

  /** A fresh bank holds the initial gas in the root and the host scope, 0 in
      every other. */
  lemma NewBalances<K>(root: Option<K>, gas: int, scope: Option<K>)
    ensures Balance(New(root, gas), scope) == if scope == root || scope.None? then gas else 0
  {
  }

  function Store<K>(b: Bank<K>, scope: Option<K>, gas: int): Bank<K> {
    match scope
    case Some(k) => b.(meters := b.meters[k := gas])
    case None => b.(host := gas)
  }

  /** `reconcile`: bank the old scope, load the new one. */
  function Reconcile<K(==)>(b: Bank<K>, to: Option<K>): Bank<K> {
    if b.active == to then b
    else
      var banked := Store(b, b.active, b.live);
      banked.(live := Stored(banked, to), active := to)
  }

  /** The running frame uses gas from the live balance. */
  function Spend<K>(b: Bank<K>, n: int): Bank<K> {
    b.(live := b.live - n)
  }

  function RootRemaining<K(==)>(b: Bank<K>): int {
    if b.active == b.root then b.live else Stored(b, b.root)
  }

  /** Switching moves no gas. */
  lemma ReconcileKeeps<K>(b: Bank<K>, to: Option<K>, scope: Option<K>)
    ensures Balance(Reconcile(b, to), scope) == Balance(b, scope)
    ensures Reconcile(b, to).active == to && Reconcile(b, to).root == b.root
  {
  }

  /** Spending touches the active scope only. */
  lemma SpendIsLocal<K>(b: Bank<K>, n: int, scope: Option<K>)
    ensures Balance(Spend(b, n), scope) == Balance(b, scope) - if scope == b.active then n else 0
  {
  }

  // ---- Every history --------------------------------------------------------

  datatype Op<K> = Switch(to: Option<K>) | Use(n: int)

  function Apply<K(==)>(b: Bank<K>, op: Op<K>): Bank<K> {
    match op
    case Switch(to) => Reconcile(b, to)
    case Use(n) => Spend(b, n)
  }

  function Run<K(==)>(b: Bank<K>, ops: seq<Op<K>>): Bank<K>
    decreases |ops|
  {
    if ops == [] then b else Run(Apply(b, ops[0]), ops[1..])
  }

  /** Gas used over a history while `scope` was the active one: no bank, just the
      sum. */
  function UsedBy<K(==)>(active: Option<K>, ops: seq<Op<K>>, scope: Option<K>): int
    decreases |ops|
  {
    if ops == [] then 0
    else
      match ops[0]
      case Switch(to) => UsedBy(to, ops[1..], scope)
      case Use(n) => (if active == scope then n else 0) + UsedBy(active, ops[1..], scope)
  }

  /** The bank refines a plain map from scope to balance: after any history each
      scope holds what it started with less what was used while it was active. */
  lemma {:induction false} BankIsAMap<K>(b: Bank<K>, ops: seq<Op<K>>, scope: Option<K>)
    ensures Balance(Run(b, ops), scope) == Balance(b, scope) - UsedBy(b.active, ops, scope)
    ensures Run(b, ops).root == b.root
    decreases |ops|
  {
    if ops != [] {
      BankIsAMap(Apply(b, ops[0]), ops[1..], scope);
      match ops[0] {
        case Switch(to) => ReconcileKeeps(b, to, scope);
        case Use(n) => SpendIsLocal(b, n, scope);
      }
    }
  }

  /** What a break reports is the root scope's balance, after every history. */
  lemma RootIsExact<K>(b: Bank<K>, ops: seq<Op<K>>)
    ensures RootRemaining(Run(b, ops)) == Balance(b, b.root) - UsedBy(b.active, ops, b.root)
  {
    BankIsAMap(b, ops, b.root);
  }

  /** Banks that differ at most in the stored copy of the active meter. */
  ghost predicate SameButStale<K(!new)>(a: Bank<K>, b: Bank<K>) {
    && a.live == b.live && a.root == b.root && a.active == b.active
    && forall scope: Option<K> :: scope != a.active ==> Stored(a, scope) == Stored(b, scope)
  }

  lemma StaleStep<K(!new)>(a: Bank<K>, b: Bank<K>, op: Op<K>)
    requires SameButStale(a, b)
    ensures SameButStale(Apply(a, op), Apply(b, op))
  {
    var a', b' := Apply(a, op), Apply(b, op);
    if op.Switch? && op.to != a.active {
      assert Stored(a, op.to) == Stored(b, op.to);
    }
    forall scope: Option<K> | scope != a'.active ensures Stored(a', scope) == Stored(b', scope) {
      if scope != a.active {
        assert Stored(a, scope) == Stored(b, scope);
      }
    }
  }

  /** The stale copy is never read: no history lets it reach the root balance, or
      any balance. */
  lemma {:induction false} StaleNeverRead<K(!new)>(a: Bank<K>, b: Bank<K>, ops: seq<Op<K>>)
    requires SameButStale(a, b)
    ensures SameButStale(Run(a, ops), Run(b, ops))
    ensures RootRemaining(Run(a, ops)) == RootRemaining(Run(b, ops))
    decreases |ops|
  {
    if ops != [] {
      StaleStep(a, b, ops[0]);
      StaleNeverRead(Apply(a, ops[0]), Apply(b, ops[0]), ops[1..]);
    }
  }

  // ---- In place -------------------------------------------------------------

  class TaskGasState<K(==)> {
    var meters: map<K, int>
    var liveGas: int
    var hostBudget: int
    var rootActive: Option<K>
    var currentActive: Option<K>

    ghost function View(): Bank<K>
      reads this
    {
      Bank(meters, liveGas, hostBudget, rootActive, currentActive)
    }

    constructor (root: Option<K>, initialGas: int)
      ensures View() == New(root, initialGas)
    {
      meters := map[];
      if root.Some? {
        meters := map[root.value := initialGas];
      }
      liveGas, hostBudget, rootActive, currentActive := initialGas, initialGas, root, root;
    }

    method ReconcileTo(to: Option<K>)
      modifies this
      ensures View() == Reconcile(old(View()), to)
    {
      if currentActive != to {
        match currentActive {
          case Some(k) => meters := meters[k := liveGas];
          case None => hostBudget := liveGas;
        }
        match to {
          case Some(k) => liveGas := if k in meters then meters[k] else 0;
          case None => liveGas := hostBudget;
        }
      }
      currentActive := to;
    }

    method UseGas(n: int)
      modifies this
      ensures View() == Spend(old(View()), n)
    {
      liveGas := liveGas - n;
    }

    method Remaining() returns (gas: int)
      ensures gas == RootRemaining(View())
      ensures gas == Balance(View(), rootActive)
    {
      if currentActive == rootActive {
        gas := liveGas;
      } else {
        match rootActive {
          case Some(k) => gas := if k in meters then meters[k] else 0;
          case None => gas := hostBudget;
        }
      }
    }
  }
}
