/** Disaster recovery of wallets: folding the wallet events into string-keyed maps. */
module WalletReplay {
  import opened Base
  import opened T = WalletTable

  datatype DeviceRecord = DeviceRecord(device: DeviceId, deviceLabel: string, credentialId: Option<string>)

  datatype State = State(
    accounts: map<string, Account>, devices: map<string, DeviceRecord>, methods: map<string, Method>)

  function DeviceKey(k: DeviceId): string {
    Lower(k.wallet) + "|" + k.chainId + "|" + k.ownerQx + "|" + k.ownerQy
  }

  const START := State(map[], map[], map[])

  /** Events with an empty identifying part are ignored, and so are updates of unknown accounts. */
  function Apply(st: State, e: Event): State {
    match e
    case AccountCreated(address, salt, qx, qy, cred, ident) =>
      if address == "" then st
      else st.(accounts := st.accounts[Lower(address) :=
                 Account(salt, qx, qy, cred, if Blank(ident) then None else ident, [])])
    case AccountIdentityUpdated(address, ident) =>
      var a := Lower(address);
      if a in st.accounts then st.(accounts := st.accounts[a := st.accounts[a].(identityId := Some(ident))]) else st
    case AccountCredentialUpdated(address, cred) =>
      var a := Lower(address);
      if a in st.accounts then st.(accounts := st.accounts[a := st.accounts[a].(credentialId := Some(cred))]) else st
    case AccountDeployed(address, chainId) =>
      var a := Lower(address);
      if a in st.accounts && chainId != "" && chainId !in st.accounts[a].deployedChains then
        st.(accounts := st.accounts[a :=
          st.accounts[a].(deployedChains := st.accounts[a].deployedChains + [chainId])])
      else st
    case DeviceRegistered(k, deviceLabel, cred) =>
      if k.wallet == "" || k.ownerQx == "" || k.ownerQy == "" then st
      else st.(devices := st.devices[DeviceKey(k) := DeviceRecord(Folded(k), deviceLabel, cred)])
    case DeviceRemoved(k) => st.(devices := st.devices - {DeviceKey(k)})
    case MethodAdded(id, m) =>
      if id == "" || m.identityId == "" then st else st.(methods := st.methods[id := m])
    case MethodRemoved(id) => if id == "" then st else st.(methods := st.methods - {id})
  }

  function Fold(log: seq<Event>): State {
    if |log| == 0 then START else Apply(Fold(log[..|log| - 1]), log[|log| - 1])
  }

  class WalletPersistState {
    var accounts: map<string, Account>
    var devices: map<string, DeviceRecord>
    var methods: map<string, Method>

    ghost function View(): State
      reads this
    {
      State(accounts, devices, methods)
    }

    constructor ()
      ensures View() == START
    {
      accounts, devices, methods := map[], map[], map[];
    }

    method ApplyWalletPersistEvent(e: Event)
      modifies this
      ensures View() == Apply(old(View()), e)
    {
      match e
      case AccountCreated(address, salt, qx, qy, cred, ident) =>
        if address == "" { return; }
        var identityId := if Blank(ident) then None else ident;
        accounts := accounts[Lower(address) := Account(salt, qx, qy, cred, identityId, [])];
      case AccountIdentityUpdated(address, ident) =>
        var a := Lower(address);
        if a in accounts { accounts := accounts[a := accounts[a].(identityId := Some(ident))]; }
      case AccountCredentialUpdated(address, cred) =>
        var a := Lower(address);
        if a in accounts { accounts := accounts[a := accounts[a].(credentialId := Some(cred))]; }
      case AccountDeployed(address, chainId) =>
        var a := Lower(address);
        if a in accounts && chainId != "" && chainId !in accounts[a].deployedChains {
          accounts := accounts[a := accounts[a].(deployedChains := accounts[a].deployedChains + [chainId])];
        }
      case DeviceRegistered(k, deviceLabel, cred) =>
        if k.wallet == "" || k.ownerQx == "" || k.ownerQy == "" { return; }
        devices := devices[DeviceKey(k) := DeviceRecord(Folded(k), deviceLabel, cred)];
      case DeviceRemoved(k) =>
        devices := devices - {DeviceKey(k)};
      case MethodAdded(id, m) =>
        if id != "" && m.identityId != "" { methods := methods[id := m]; }
      case MethodRemoved(id) =>
        if id != "" { methods := methods - {id}; }
    }

    method ReplayWalletPersistState(events: seq<Event>)
      requires View() == START
      modifies this
      ensures View() == Fold(events)
    {
      for i := 0 to |events|
        invariant View() == Fold(events[..i])
      {
        ApplyWalletPersistEvent(events[i]);
        assert events[..i + 1][..i] == events[..i];
      }
      assert events[..|events|] == events;
    }
  }

  // ----- Composite keys -----

  predicate NoBar(s: string) {
    '|' !in s
  }

  predicate Plain(k: DeviceId) {
    NoBar(k.wallet) && NoBar(k.chainId) && NoBar(k.ownerQx) && NoBar(k.ownerQy)
  }

  /** The first bar of a joined text is where its bar-free first part ends. */
  lemma FirstBarSplits(a: string, b: string, x: string, y: string)
    requires NoBar(a) && NoBar(x) && a + "|" + b == x + "|" + y
    ensures a == x && b == y
  {
    var s := a + "|" + b;
    assert s == x + "|" + y;
    assert s[|a|] == '|' && s[|x|] == '|';
    assert forall i :: 0 <= i < |a| ==> s[i] == a[i] && a[i] in a;
    assert forall i :: 0 <= i < |x| ==> s[i] == x[i] && x[i] in x;
    assert a == s[..|a|] && x == s[..|x|];
    assert b == s[|a| + 1..] && y == s[|x| + 1..];
  }

  lemma LowerNoBar(s: string)
    requires NoBar(s)
    ensures NoBar(Lower(s))
  {
    assert forall i :: 0 <= i < |s| ==> s[i] != '|';
  }

  lemma DeviceKeyInjective(k: DeviceId, l: DeviceId)
    requires Plain(k) && Plain(l)
    ensures DeviceKey(k) == DeviceKey(l) <==> Folded(k) == Folded(l)
  {
    if DeviceKey(k) == DeviceKey(l) {
      LowerNoBar(k.wallet);
      LowerNoBar(l.wallet);
      var tk, tl := k.ownerQx + "|" + k.ownerQy, l.ownerQx + "|" + l.ownerQy;
      assert DeviceKey(k) == Lower(k.wallet) + "|" + (k.chainId + "|" + tk);
      assert DeviceKey(l) == Lower(l.wallet) + "|" + (l.chainId + "|" + tl);
      FirstBarSplits(Lower(k.wallet), k.chainId + "|" + tk, Lower(l.wallet), l.chainId + "|" + tl);
      FirstBarSplits(k.chainId, tk, l.chainId, tl);
      FirstBarSplits(k.ownerQx, k.ownerQy, l.ownerQx, l.ownerQy);
    }
  }

  /** The number of bars in a text. */
  function Bars(s: string): (n: nat)
    ensures n == 0 <==> NoBar(s)
  {
    if |s| == 0 then 0 else Bars(s[..|s| - 1]) + if s[|s| - 1] == '|' then 1 else 0
  }

  lemma {:induction false} BarsAdd(s: string, t: string)
    ensures Bars(s + t) == Bars(s) + Bars(t)
  {
    if |t| == 0 {
      assert s + t == s;
    } else {
      BarsAdd(s, t[..|t| - 1]);
      assert (s + t)[..|s + t| - 1] == s + t[..|t| - 1];
    }
  }

  lemma {:induction false} BarsOfLower(s: string)
    ensures Bars(Lower(s)) == Bars(s)
  {
    if |s| > 0 {
      BarsOfLower(s[..|s| - 1]);
      assert Lower(s)[..|s| - 1] == Lower(s[..|s| - 1]);
    }
  }

  lemma BarsJoined(s: string, t: string)
    ensures Bars(s + "|" + t) == Bars(s) + 1 + Bars(t)
  {
    BarsAdd(s, "|");
    BarsAdd(s + "|", t);
    assert "|"[..0] == "";
  }

  lemma BarsOfKey(k: DeviceId)
    ensures Bars(DeviceKey(k)) == 3 + Bars(k.wallet) + Bars(k.chainId) + Bars(k.ownerQx) + Bars(k.ownerQy)
  {
    BarsOfLower(k.wallet);
    BarsJoined(Lower(k.wallet), k.chainId);
    BarsJoined(Lower(k.wallet) + "|" + k.chainId, k.ownerQx);
    BarsJoined(Lower(k.wallet) + "|" + k.chainId + "|" + k.ownerQx, k.ownerQy);
  }

  lemma LowerJoined(s: string, t: string)
    ensures Lower(s + "|" + t) == Lower(s) + "|" + Lower(t)
  {
  }

  /** A bar in the second of three parts can as well be the one after the first, or before the third. */
  lemma BarMoves(a: string, u: string, v: string, b: string)
    ensures a + "|" + (u + "|" + v) + "|" + b == a + "|" + u + "|" + (v + "|" + b)
    ensures a + "|" + (u + "|" + v) + "|" + b == (a + "|" + u) + "|" + v + "|" + b
  {
  }

  /** Another device that shares the key. */
  lemma Collider(k: DeviceId) returns (l: DeviceId)
    requires !Plain(k)
    ensures DeviceKey(l) == DeviceKey(k) && Folded(l) != Folded(k)
  {
    var (w, c, x, y) := (k.wallet, k.chainId, k.ownerQx, k.ownerQy);
    if !NoBar(w) {
      l := WalletCollider(k);
    } else if !NoBar(c) {
      var (u, v) := SplitAtBar(c);
      l := DeviceId(w, u, v + "|" + x, y);
      BarMoves(Lower(w), u, v, x);
    } else if !NoBar(x) {
      var (u, v) := SplitAtBar(x);
      l := DeviceId(w, c, u, v + "|" + y);
      BarMoves(Lower(w) + "|" + c, u, v, y);
    } else {
      var (u, v) := SplitAtBar(y);
      l := DeviceId(w, c, x + "|" + u, v);
      assert DeviceKey(l) == Lower(w) + "|" + c + "|" + x + "|" + (u + "|" + v);
    }
  }

  lemma WalletCollider(k: DeviceId) returns (l: DeviceId)
    requires !NoBar(k.wallet)
    ensures DeviceKey(l) == DeviceKey(k) && Folded(l) != Folded(k)
  {
    var (u, v) := SplitAtBar(k.wallet);
    l := DeviceId(u, Lower(v), k.chainId + "|" + k.ownerQx, k.ownerQy);
    LowerJoined(u, v);
    BarMoves(Lower(u), Lower(v), k.chainId, k.ownerQx);
    assert |Lower(u)| < |Lower(k.wallet)|;
    assert DeviceKey(l) == Lower(u) + "|" + Lower(v) + "|" + (k.chainId + "|" + k.ownerQx) + "|" + k.ownerQy;
  }

  function SplitAtBar(s: string): (p: (string, string))
    requires !NoBar(s)
    ensures s == p.0 + "|" + p.1 && |p.0| < |s|
  {
    if s[|s| - 1] == '|' then (s[..|s| - 1], "")
    else
      var (u, v) := SplitAtBar(s[..|s| - 1]);
      (u, v + [s[|s| - 1]])
  }

  /** A device shares its key with another one exactly if one of its parts contains a bar. */
  lemma BarsCollide(k: DeviceId)
    ensures (exists l :: DeviceKey(l) == DeviceKey(k) && Folded(l) != Folded(k)) <==> !Plain(k)
  {
    if Plain(k) {
      forall l | DeviceKey(l) == DeviceKey(k) ensures Folded(l) == Folded(k) {
        BarsOfKey(k);
        BarsOfKey(l);
        DeviceKeyInjective(k, l);
      }
    } else {
      var l := Collider(k);
    }
  }

  /** Of an entity and of an entity's key; both by wallet and identifier. */
  function EntityKey(wallet: string, id: string): string {
    Lower(wallet) + "|" + id
  }

  /** A bar in the identifier can end the wallet of a key if what precedes it is in lower case, as wallets are. */
  predicate LowerUpToABar(id: string) {
    exists j :: 0 <= j < |id| && id[j] == '|' && Lower(id[..j]) == id[..j]
  }

  /** The wallet of a colliding key goes on into the identifier. */
  lemma LongerWallet(wallet: string, id: string, w: string, i: string)
    requires EntityKey(w, i) == EntityKey(wallet, id) && NoBar(wallet) && (Lower(w), i) != (Lower(wallet), id)
    ensures LowerUpToABar(id)
  {
    LowerNoBar(wallet);
    var m, n, s := |wallet|, |w|, EntityKey(wallet, id);
    assert s == Lower(w) + "|" + i && s[n] == '|' && s[m] == '|';
    assert forall j :: 0 <= j < m ==> s[j] == Lower(wallet)[j] && s[j] in Lower(wallet);
    assert id == s[m + 1..] && i == s[n + 1..] && Lower(wallet) == s[..m] && Lower(w) == s[..n];
    assert n > m;
    LowerIdempotent(w);
    assert forall j :: 0 <= j < n ==> LowerChar(s[j]) == s[j] by {
      assert forall j :: 0 <= j < n ==> s[j] == Lower(w)[j] && Lower(Lower(w))[j] == LowerChar(Lower(w)[j]);
    }
    assert id[..n - m - 1] == s[m + 1..n];
    assert Lower(id[..n - m - 1]) == id[..n - m - 1];
  }

  /**
   An entity shares its key with another one exactly if its wallet contains a bar, or its identifier one after nothing
   but lower case.
   */
  lemma EntityBarsCollide(wallet: string, id: string)
    ensures (exists w, i :: EntityKey(w, i) == EntityKey(wallet, id) && (Lower(w), i) != (Lower(wallet), id)) <==>
            !NoBar(wallet) || LowerUpToABar(id)
  {
    if !NoBar(wallet) {
      var (u, v) := SplitAtBar(wallet);
      LowerJoined(u, v);
      assert EntityKey(u, Lower(v) + "|" + id) == EntityKey(wallet, id) && |Lower(u)| < |Lower(wallet)|;
    } else if LowerUpToABar(id) {
      var j :| 0 <= j < |id| && id[j] == '|' && Lower(id[..j]) == id[..j];
      LowerJoined(wallet, id[..j]);
      assert id == id[..j] + "|" + id[j + 1..];
      assert EntityKey(wallet + "|" + id[..j], id[j + 1..]) == EntityKey(wallet, id) && |id[j + 1..]| < |id|;
    } else {
      forall w, i | EntityKey(w, i) == EntityKey(wallet, id) ensures (Lower(w), i) == (Lower(wallet), id) {
        if (Lower(w), i) != (Lower(wallet), id) { LongerWallet(wallet, id, w, i); }
      }
    }
  }

  // ----- Agreement with the live tables -----

  /** Writes whose identifying parts the replay accepts: none empty, no bar in a device key. */
  predicate Regular(op: Op) {
    match op
    case UpsertAccount(address, _, _, _, _, ident) => address != "" && ident != Some("")
    case MarkDeployed(_, chainId) => chainId != ""
    case UpsertDevice(k, _, _) => Plain(k) && k.wallet != "" && k.ownerQx != "" && k.ownerQy != ""
    case DeleteDevice(k) => Plain(k)
    case InsertMethod(id, m) => id != "" && m.identityId != ""
    case DeleteMethod(_) => true
  }

  /** All but the credential id. */
  predicate SameAccount(live: Account, replayed: Account) {
    live.(credentialId := None) == replayed.(credentialId := None) && live.identityId != Some("")
  }

  /** All but the credential id. */
  predicate SameMethod(live: Method, replayed: Method) {
    live.(credentialId := None) == replayed.(credentialId := None)
  }

  ghost predicate AccountsAgree(live: map<string, Account>, replayed: map<string, Account>) {
    && live.Keys == replayed.Keys
    && forall a :: a in live ==> SameAccount(live[a], replayed[a])
  }

  ghost predicate DevicesAgree(live: map<DeviceId, Device>, replayed: map<string, DeviceRecord>) {
    && (forall k :: k in live ==>
          Plain(k) && Folded(k) == k && DeviceKey(k) in replayed &&
          replayed[DeviceKey(k)].device == k && replayed[DeviceKey(k)].deviceLabel == live[k].deviceLabel)
    && (forall s :: s in replayed ==> replayed[s].device in live && DeviceKey(replayed[s].device) == s)
  }

  ghost predicate MethodsAgree(live: map<string, Method>, replayed: map<string, Method>) {
    && live.Keys == replayed.Keys
    && "" !in live
    && forall id :: id in live ==> SameMethod(live[id], replayed[id])
  }

  ghost predicate Agrees(t: Tables, st: State) {
    AccountsAgree(t.accounts, st.accounts) && DevicesAgree(t.devices, st.devices) && MethodsAgree(t.methods, st.methods)
  }

  function ApplyAll(st: State, out: seq<Event>): State
    requires |out| <= 1
  {
    if |out| == 0 then st else Apply(st, out[0])
  }

  lemma FoldSnoc(log: seq<Event>, out: seq<Event>)
    requires |out| <= 1
    ensures Fold(log + out) == ApplyAll(Fold(log), out)
  {
    if |out| == 0 {
      assert log + out == log;
    } else {
      assert (log + out)[..|log|] == log;
    }
  }

  lemma SetAccounts(live: map<string, Account>, replayed: map<string, Account>, a: string, l: Account, r: Account)
    requires AccountsAgree(live, replayed) && SameAccount(l, r)
    ensures AccountsAgree(live[a := l], replayed[a := r])
  {
  }

  lemma SetMethods(live: map<string, Method>, replayed: map<string, Method>, id: string, l: Method, r: Method)
    requires MethodsAgree(live, replayed) && SameMethod(l, r) && id != ""
    ensures MethodsAgree(live[id := l], replayed[id := r])
  {
  }

  lemma NewAccountStep(t: Tables, st: State, op: Op)
    requires AccountsAgree(t.accounts, st.accounts) && Regular(op) && op.UpsertAccount?
    requires Lower(op.address) !in t.accounts
    ensures AccountsAgree(Write(t, op).accounts, ApplyAll(st, Emits(t, op)).accounts)
  {
    var a := Lower(op.address);
    LowerIdempotent(op.address);
    SetAccounts(t.accounts, st.accounts, a,
                Write(t, op).accounts[a], ApplyAll(st, Emits(t, op)).accounts[a]);
  }

  lemma OldAccountStep(t: Tables, st: State, op: Op)
    requires AccountsAgree(t.accounts, st.accounts) && Regular(op) && op.UpsertAccount?
    requires Lower(op.address) in t.accounts
    ensures AccountsAgree(Write(t, op).accounts, ApplyAll(st, Emits(t, op)).accounts)
  {
    var a := Lower(op.address);
    LowerIdempotent(op.address);
    var live, replayed := Write(t, op).accounts, ApplyAll(st, Emits(t, op)).accounts;
    assert replayed == st.accounts[a := replayed[a]];
    SetAccounts(t.accounts, st.accounts, a, live[a], replayed[a]);
  }

  lemma MarkDeployedStep(t: Tables, st: State, op: Op)
    requires AccountsAgree(t.accounts, st.accounts) && Regular(op) && op.MarkDeployed?
    ensures AccountsAgree(Write(t, op).accounts, ApplyAll(st, Emits(t, op)).accounts)
  {
    LowerIdempotent(op.address);
  }

  lemma FoldedKey(k: DeviceId)
    requires Plain(k)
    ensures Plain(Folded(k)) && Folded(Folded(k)) == Folded(k) && DeviceKey(Folded(k)) == DeviceKey(k)
  {
    LowerIdempotent(k.wallet);
    LowerNoBar(k.wallet);
  }

  lemma KeyIsOfOne(live: map<DeviceId, Device>, replayed: map<string, DeviceRecord>, k: DeviceId)
    requires DevicesAgree(live, replayed) && Plain(k) && Folded(k) == k
    ensures forall l :: l in live ==> (DeviceKey(l) == DeviceKey(k) <==> l == k)
    ensures DeviceKey(k) in replayed ==> k in live
  {
    forall l | l in live ensures DeviceKey(l) == DeviceKey(k) <==> l == k { DeviceKeyInjective(l, k); }
  }

  lemma SetDevices(
    live: map<DeviceId, Device>, replayed: map<string, DeviceRecord>, k: DeviceId, d: Device, r: DeviceRecord)
    requires DevicesAgree(live, replayed) && Plain(k) && Folded(k) == k
    requires r.device == k && r.deviceLabel == d.deviceLabel
    ensures DevicesAgree(live[k := d], replayed[DeviceKey(k) := r])
  {
    KeyIsOfOne(live, replayed, k);
  }

  lemma RemoveDevices(live: map<DeviceId, Device>, replayed: map<string, DeviceRecord>, k: DeviceId)
    requires DevicesAgree(live, replayed) && Plain(k) && Folded(k) == k
    ensures DevicesAgree(live - {k}, replayed - {DeviceKey(k)})
  {
    KeyIsOfOne(live, replayed, k);
  }

  lemma DeviceStep(t: Tables, st: State, op: Op)
    requires DevicesAgree(t.devices, st.devices) && Regular(op)
    requires op.UpsertDevice? || op.DeleteDevice?
    ensures DevicesAgree(Write(t, op).devices, ApplyAll(st, Emits(t, op)).devices)
  {
    var k := Folded(op.device);
    FoldedKey(op.device);
    var live, replayed := Write(t, op).devices, ApplyAll(st, Emits(t, op)).devices;
    if op.UpsertDevice? {
      assert replayed == st.devices[DeviceKey(k) := replayed[DeviceKey(k)]];
      SetDevices(t.devices, st.devices, k, live[k], replayed[DeviceKey(k)]);
    } else {
      assert replayed == st.devices - {DeviceKey(k)};
      RemoveDevices(t.devices, st.devices, k);
    }
  }

  lemma MethodStep(t: Tables, st: State, op: Op)
    requires MethodsAgree(t.methods, st.methods) && Regular(op)
    requires op.InsertMethod? || op.DeleteMethod?
    ensures MethodsAgree(Write(t, op).methods, ApplyAll(st, Emits(t, op)).methods)
  {
    if op.InsertMethod? {
      var replayed := ApplyAll(st, Emits(t, op)).methods;
      assert replayed == st.methods[op.id := replayed[op.id]];
      SetMethods(t.methods, st.methods, op.id, Write(t, op).methods[op.id], replayed[op.id]);
    }
  }

  /** Each write and its event touch one table. */
  lemma OthersUntouched(t: Tables, st: State, op: Op)
    ensures var (t', st') := (Write(t, op), ApplyAll(st, Emits(t, op)));
            && (!op.UpsertAccount? && !op.MarkDeployed? ==> t'.accounts == t.accounts && st'.accounts == st.accounts)
            && (!op.UpsertDevice? && !op.DeleteDevice? ==> t'.devices == t.devices && st'.devices == st.devices)
            && (!op.InsertMethod? && !op.DeleteMethod? ==> t'.methods == t.methods && st'.methods == st.methods)
  {
  }

  lemma StepAgrees(t: Tables, st: State, op: Op)
    requires Agrees(t, st) && Regular(op)
    ensures Agrees(Write(t, op), ApplyAll(st, Emits(t, op)))
  {
    OthersUntouched(t, st, op);
    match op
    case UpsertAccount(address, _, _, _, _, _) =>
      if Lower(address) in t.accounts { OldAccountStep(t, st, op); } else { NewAccountStep(t, st, op); }
    case MarkDeployed(_, _) => MarkDeployedStep(t, st, op);
    case UpsertDevice(_, _, _) => DeviceStep(t, st, op);
    case DeleteDevice(_) => DeviceStep(t, st, op);
    case InsertMethod(_, _) => MethodStep(t, st, op);
    case DeleteMethod(_) => MethodStep(t, st, op);
  }

  /**
   In every run of wallet writes the folded log agrees with the live tables: accounts with address, salt, owner key,
   identity and deployed chains in order; devices with labels; identity methods with their key material.
   */
  lemma {:induction false} ReplayAgreesWithTables(ops: seq<Op>)
    requires forall op :: op in ops ==> Regular(op)
    ensures Agrees(Run(ops).tables, Fold(Run(ops).log))
  {
    if |ops| > 0 {
      var before, op := ops[..|ops| - 1], ops[|ops| - 1];
      ReplayAgreesWithTables(before);
      FoldSnoc(Run(before).log, Emits(Run(before).tables, op));
      StepAgrees(Run(before).tables, Fold(Run(before).log), op);
    }
  }

  /** A new account's identity survives the replay exactly when it is not the empty text. */
  lemma CreatedIdentityKeptIff(t: Tables, st: State, op: Op)
    requires AccountsAgree(t.accounts, st.accounts) && op.UpsertAccount? && op.address != ""
    requires Lower(op.address) !in t.accounts
    ensures var (live, replayed) := (Write(t, op).accounts, ApplyAll(st, Emits(t, op)).accounts);
            && Lower(op.address) in live && Lower(op.address) in replayed
            && (live[Lower(op.address)].identityId == replayed[Lower(op.address)].identityId <==>
                op.identityId != Some(""))
  {
    LowerIdempotent(op.address);
  }

  /**
   A known account's credential id stays in step exactly if the upsert brings none, the stored one, the first one
   without a new identity, or another one with a new identity, whose event takes the place of the credential's.
   */
  lemma AccountCredentialKeptIff(t: Tables, st: State, op: Op)
    requires op.UpsertAccount? && Lower(op.address) in t.accounts && Lower(op.address) in st.accounts
    requires t.accounts[Lower(op.address)].credentialId == st.accounts[Lower(op.address)].credentialId
    ensures var (a, row) := (Lower(op.address), t.accounts[Lower(op.address)]);
            var (live, replayed) := (Write(t, op).accounts, ApplyAll(st, Emits(t, op)).accounts);
            && a in live && a in replayed
            && (live[a].credentialId == replayed[a].credentialId <==>
                  Blank(op.credentialId) || op.credentialId == row.credentialId
                  || (Blank(row.credentialId) <==> Blank(op.identityId) || op.identityId == row.identityId))
  {
    LowerIdempotent(op.address);
  }

  /** The replay shows the credential id of a device's last upsert; the table has it exactly if it kept no other one. */
  lemma DeviceCredentialKeptIff(t: Tables, st: State, op: Op)
    requires op.UpsertDevice? && op.device.wallet != "" && op.device.ownerQx != "" && op.device.ownerQy != ""
    ensures var (k, key) := (Folded(op.device), DeviceKey(Folded(op.device)));
            var (live, replayed) := (Write(t, op).devices, ApplyAll(st, Emits(t, op)).devices);
            && k in live && key in replayed && replayed[key].credentialId == op.deviceCredentialId
            && (live[k].credentialId == replayed[key].credentialId <==>
                  k in t.devices ==>
                    op.deviceCredentialId == t.devices[k].credentialId
                    || (Blank(t.devices[k].credentialId) && !Blank(op.deviceCredentialId)))
  {
  }

  /** A known method's credential id stays in step exactly if the insert brings none or the stored one. */
  lemma MethodCredentialKeptIff(t: Tables, st: State, op: Op)
    requires op.InsertMethod? && op.id in t.methods && op.id in st.methods
    requires t.methods[op.id].credentialId == st.methods[op.id].credentialId
    ensures var (live, replayed) := (Write(t, op).methods, ApplyAll(st, Emits(t, op)).methods);
            && op.id in live && op.id in replayed
            && (live[op.id].credentialId == replayed[op.id].credentialId <==>
                  op.m.credentialId.None? || op.m.credentialId == t.methods[op.id].credentialId)
  {
  }

  /** A new account, device or method gets into the replay exactly if no part that identifies it is empty. */
  lemma NewRowReplayedIff(t: Tables, st: State, op: Op)
    ensures var after := ApplyAll(st, Emits(t, op));
            match op
            case UpsertAccount(address, _, _, _, _, _) =>
              Lower(address) !in t.accounts && Lower(address) !in st.accounts ==>
                (Lower(address) in after.accounts <==> address != "")
            case UpsertDevice(k, _, _) =>
              DeviceKey(k) !in st.devices ==>
                (DeviceKey(k) in after.devices <==> k.wallet != "" && k.ownerQx != "" && k.ownerQy != "")
            case InsertMethod(id, m) =>
              id !in t.methods && id !in st.methods ==> (id in after.methods <==> id != "" && m.identityId != "")
            case _ => true
  {
    if op.UpsertAccount? { LowerIdempotent(op.address); }
    if op.UpsertDevice? { LowerIdempotent(op.device.wallet); }
  }
}
