/** The wallet tables that disaster recovery rebuilds, and the events their writes append. */
module WalletTable {
  import opened Base

  datatype Account = Account(
    salt: string, ownerQx: string, ownerQy: string, credentialId: Option<string>, identityId: Option<string>,
    deployedChains: seq<string>)

  /** Primary key of `wallet_devices`. */
  datatype DeviceId = DeviceId(wallet: string, chainId: string, ownerQx: string, ownerQy: string)

  datatype Device = Device(deviceLabel: string, credentialId: Option<string>)

  datatype Kind = Webauthn | Yubikey | Eoa

  datatype Method = Method(
    identityId: string, kind: Kind, credentialId: Option<string>, qx: Option<string>, qy: Option<string>,
    eoa: Option<string>)

  datatype Event =
    | AccountCreated(address: string, salt: string, ownerQx: string, ownerQy: string, credentialId: Option<string>,
                     identityId: Option<string>)
    | AccountIdentityUpdated(address: string, newIdentityId: string)
    | AccountCredentialUpdated(address: string, newCredentialId: string)
    | AccountDeployed(address: string, chainId: string)
    | DeviceRegistered(device: DeviceId, deviceLabel: string, deviceCredentialId: Option<string>)
    | DeviceRemoved(device: DeviceId)
    | MethodAdded(id: string, m: Method)
    | MethodRemoved(id: string)

  datatype Tables = Tables(
    accounts: map<string, Account>, devices: map<DeviceId, Device>, methods: map<string, Method>)

  datatype Op =
    | UpsertAccount(address: string, salt: string, ownerQx: string, ownerQy: string, credentialId: Option<string>,
                    identityId: Option<string>)
    | MarkDeployed(address: string, chainId: string)
    | UpsertDevice(device: DeviceId, deviceLabel: string, deviceCredentialId: Option<string>)
    | DeleteDevice(device: DeviceId)
    | InsertMethod(id: string, m: Method)
    | DeleteMethod(id: string)

  predicate Blank(s: Option<string>) {
    s.None? || s.value == ""
  }

  /** The "keep the old credential id" rule of accounts and devices. */
  function KeepCredential(kept: Option<string>, incoming: Option<string>): Option<string> {
    if Blank(incoming) then kept else if Blank(kept) then incoming else kept
  }

  function Folded(k: DeviceId): DeviceId {
    k.(wallet := Lower(k.wallet))
  }

  /** The tables after one write. */
  function Write(t: Tables, op: Op): Tables {
    match op
    case UpsertAccount(address, salt, qx, qy, cred, ident) =>
      var a := Lower(address);
      if a in t.accounts then
        var row := t.accounts[a];
        t.(accounts := t.accounts[a := row.(
          credentialId := KeepCredential(row.credentialId, cred),
          identityId := if Blank(ident) then row.identityId else ident)])
      else
        t.(accounts := t.accounts[a := Account(salt, qx, qy, cred, ident, [])])
    case MarkDeployed(address, chainId) =>
      var a := Lower(address);
      if a in t.accounts && chainId !in t.accounts[a].deployedChains then
        t.(accounts := t.accounts[a :=
          t.accounts[a].(deployedChains := t.accounts[a].deployedChains + [chainId])])
      else t
    case UpsertDevice(device, deviceLabel, cred) =>
      var k := Folded(device);
      t.(devices := t.devices[k :=
        Device(deviceLabel, if k in t.devices then KeepCredential(t.devices[k].credentialId, cred) else cred)])
    case DeleteDevice(device) => t.(devices := t.devices - {Folded(device)})
    case InsertMethod(id, m) =>
      if id in t.methods then
        t.(methods := t.methods[id :=
          t.methods[id].(credentialId := m.credentialId.Or(t.methods[id].credentialId))])
      else t.(methods := t.methods[id := m])
    case DeleteMethod(id) => t.(methods := t.methods - {id})
  }

  /** The events the same write appends. */
  function Emits(t: Tables, op: Op): seq<Event> {
    match op
    case UpsertAccount(address, salt, qx, qy, cred, ident) =>
      var a := Lower(address);
      if a !in t.accounts then [AccountCreated(a, salt, qx, qy, cred, ident)]
      else if !Blank(ident) && ident != t.accounts[a].identityId then [AccountIdentityUpdated(a, ident.value)]
      else if !Blank(cred) && cred != t.accounts[a].credentialId then [AccountCredentialUpdated(a, cred.value)]
      else []
    case MarkDeployed(address, chainId) =>
      var a := Lower(address);
      if a in t.accounts && chainId !in t.accounts[a].deployedChains then [AccountDeployed(a, chainId)] else []
    case UpsertDevice(device, deviceLabel, cred) => [DeviceRegistered(Folded(device), deviceLabel, cred)]
    case DeleteDevice(device) => [DeviceRemoved(Folded(device))]
    case InsertMethod(id, m) => if id in t.methods then [] else [MethodAdded(id, m)]
    case DeleteMethod(id) => if id in t.methods then [MethodRemoved(id)] else []
  }

  datatype Db = Db(tables: Tables, log: seq<Event>)

  function Next(db: Db, op: Op): Db {
    Db(Write(db.tables, op), db.log + Emits(db.tables, op))
  }

  const EMPTY := Db(Tables(map[], map[], map[]), [])

  function Run(ops: seq<Op>): Db {
    if |ops| == 0 then EMPTY else Next(Run(ops[..|ops| - 1]), ops[|ops| - 1])
  }

  class WalletDb {
    var accounts: map<string, Account>
    var devices: map<DeviceId, Device>
    var methods: map<string, Method>
    var log: seq<Event>

    ghost function State(): Db
      reads this
    {
      Db(Tables(accounts, devices, methods), log)
    }

    constructor ()
      ensures State() == EMPTY
    {
      accounts, devices, methods, log := map[], map[], map[], [];
    }

    method UpsertWalletAccount(address: string, salt: string, ownerQx: string, ownerQy: string,
                               credentialId: Option<string>, identityId: Option<string>)
      modifies this
      ensures State() ==
              Next(old(State()), Op.UpsertAccount(address, salt, ownerQx, ownerQy, credentialId, identityId))
    {
      var a := Lower(address);
      var existed := Get(accounts, a);
      if existed.None? {
        accounts := accounts[a := Account(salt, ownerQx, ownerQy, credentialId, identityId, [])];
        log := log + [AccountCreated(a, salt, ownerQx, ownerQy, credentialId, identityId)];
        return;
      }
      var row := existed.value;
      if !Blank(credentialId) && Blank(row.credentialId) { row := row.(credentialId := credentialId); }
      if !Blank(identityId) { row := row.(identityId := identityId); }
      accounts := accounts[a := row];
      if !Blank(identityId) && identityId != existed.value.identityId {
        log := log + [AccountIdentityUpdated(a, identityId.value)];
      } else if !Blank(credentialId) && credentialId != existed.value.credentialId {
        log := log + [AccountCredentialUpdated(a, credentialId.value)];
      }
    }

    method MarkWalletDeployed(address: string, chainId: string)
      modifies this
      ensures State() == Next(old(State()), Op.MarkDeployed(address, chainId))
    {
      var a := Lower(address);
      if a !in accounts || chainId in accounts[a].deployedChains { return; }
      accounts := accounts[a := accounts[a].(deployedChains := accounts[a].deployedChains + [chainId])];
      log := log + [AccountDeployed(a, chainId)];
    }

    method UpsertWalletDevice(device: DeviceId, deviceLabel: string, credentialId: Option<string>)
      modifies this
      ensures State() == Next(old(State()), Op.UpsertDevice(device, deviceLabel, credentialId))
    {
      var k := Folded(device);
      if k in devices {
        devices := devices[k := Device(deviceLabel, KeepCredential(devices[k].credentialId, credentialId))];
      } else {
        devices := devices[k := Device(deviceLabel, credentialId)];
      }
      log := log + [DeviceRegistered(k, deviceLabel, credentialId)];
    }

    method DeleteWalletDevice(device: DeviceId)
      modifies this
      ensures State() == Next(old(State()), Op.DeleteDevice(device))
    {
      devices := devices - {Folded(device)};
      log := log + [DeviceRemoved(Folded(device))];
    }

    method InsertIdentityMethod(id: string, m: Method)
      modifies this
      ensures State() == Next(old(State()), Op.InsertMethod(id, m))
    {
      if id in methods {
        methods := methods[id := methods[id].(credentialId := m.credentialId.Or(methods[id].credentialId))];
      } else {
        methods := methods[id := m];
        log := log + [MethodAdded(id, m)];
      }
    }

    method DeleteIdentityMethod(id: string)
      modifies this
      ensures State() == Next(old(State()), Op.DeleteMethod(id))
    {
      if id in methods {
        methods := methods - {id};
        log := log + [MethodRemoved(id)];
      }
    }
  }

  // ----- What every run leaves in the columns -----

  /** The first, or the last, that the operations say about something; None if they say nothing. */
  function First<V>(ops: seq<Op>, says: Op -> Option<V>): Option<V> {
    if |ops| == 0 then None else First(ops[..|ops| - 1], says).Or(says(ops[|ops| - 1]))
  }

  function Last<V>(ops: seq<Op>, says: Op -> Option<V>): Option<V> {
    if |ops| == 0 then None else says(ops[|ops| - 1]).Or(Last(ops[..|ops| - 1], says))
  }

  lemma Snoc<V>(ops: seq<Op>, op: Op, says: Op -> Option<V>)
    ensures First(ops + [op], says) == First(ops, says).Or(says(op))
    ensures Last(ops + [op], says) == says(op).Or(Last(ops, says))
  {
    assert (ops + [op])[..|ops|] == ops;
  }

  function NotBlank(s: Option<string>): Option<string> {
    if Blank(s) then None else s
  }

  function TermsOf(a: string): Op -> Option<(string, string, string)> {
    (op: Op) =>
      if op.UpsertAccount? && Lower(op.address) == a then Some((op.salt, op.ownerQx, op.ownerQy)) else None
  }

  function CredentialOf(a: string): Op -> Option<string> {
    (op: Op) => if op.UpsertAccount? && Lower(op.address) == a then NotBlank(op.credentialId) else None
  }

  function IdentityOf(a: string): Op -> Option<string> {
    (op: Op) => if op.UpsertAccount? && Lower(op.address) == a then NotBlank(op.identityId) else None
  }

  predicate AccountTold(row: Option<Account>, ops: seq<Op>, a: string) {
    (First(ops, TermsOf(a)), First(ops, CredentialOf(a)), Last(ops, IdentityOf(a))) ==
    if row.None? then (None, None, None)
    else (Some((row.value.salt, row.value.ownerQx, row.value.ownerQy)), NotBlank(row.value.credentialId),
          NotBlank(row.value.identityId))
  }

  lemma AccountStep(t: Tables, op: Op, ops: seq<Op>, a: string)
    requires AccountTold(Get(t.accounts, a), ops, a)
    ensures AccountTold(Get(Write(t, op).accounts, a), ops + [op], a)
  {
    AccountAfter(t, op, a);
    Snoc(ops, op, TermsOf(a));
    Snoc(ops, op, CredentialOf(a));
    Snoc(ops, op, IdentityOf(a));
  }

  /** Only an upsert of the account touches its columns, but for its chains. */
  lemma AccountAfter(t: Tables, op: Op, a: string)
    ensures var (row, after) := (Get(t.accounts, a), Get(Write(t, op).accounts, a));
            if op.UpsertAccount? && Lower(op.address) == a then
              after == Some(
                if row.None? then Account(op.salt, op.ownerQx, op.ownerQy, op.credentialId, op.identityId, [])
                else row.value.(credentialId := KeepCredential(row.value.credentialId, op.credentialId),
                                identityId := NotBlank(op.identityId).Or(row.value.identityId)))
            else
              after == if row.None? then None
                       else Some(row.value.(deployedChains := if after.None? then [] else after.value.deployedChains))
  {
  }

  /**
   An account exists once it was upserted, has the terms of its first upsert for good, the first credential id that was
   not blank, and the last such identity.
   */
  lemma {:induction false} AccountColumns(ops: seq<Op>, a: string)
    ensures AccountTold(Get(Run(ops).tables.accounts, a), ops, a)
  {
    if |ops| > 0 {
      var front, op := ops[..|ops| - 1], ops[|ops| - 1];
      AccountColumns(front, a);
      AccountStep(Run(front).tables, op, front, a);
      assert front + [op] == ops;
    }
  }

  predicate Marks(op: Op, a: string, chainId: string) {
    op.MarkDeployed? && Lower(op.address) == a && op.chainId == chainId
  }

  /** The chain was marked after the account was first upserted. */
  ghost predicate MarkedOnceThere(ops: seq<Op>, a: string, chainId: string) {
    exists j :: 0 <= j < |ops| && Marks(ops[j], a, chainId) && First(ops[..j], TermsOf(a)).Some?
  }

  lemma MarkedOneMore(ops: seq<Op>, op: Op, a: string, c: string)
    ensures MarkedOnceThere(ops + [op], a, c) <==>
            MarkedOnceThere(ops, a, c) || (Marks(op, a, c) && First(ops, TermsOf(a)).Some?)
  {
    var all, n := ops + [op], |ops|;
    assert all[..n] == ops;
    if MarkedOnceThere(ops, a, c) {
      var j :| 0 <= j < n && Marks(ops[j], a, c) && First(ops[..j], TermsOf(a)).Some?;
      assert all[..j] == ops[..j] && Marks(all[j], a, c);
    }
    if Marks(op, a, c) && First(ops, TermsOf(a)).Some? {
      assert Marks(all[n], a, c);
    }
    if MarkedOnceThere(all, a, c) {
      var j :| 0 <= j <= n && Marks(all[j], a, c) && First(all[..j], TermsOf(a)).Some?;
      if j < n { assert all[..j] == ops[..j] && Marks(ops[j], a, c); }
    }
  }

  /** The chains are exactly those marked since the account exists, each once. */
  ghost predicate ChainsTold(row: Option<Account>, ops: seq<Op>, a: string) {
    var chains := if row.None? then [] else row.value.deployedChains;
    && (forall c :: c in chains <==> MarkedOnceThere(ops, a, c))
    && (forall i, j :: 0 <= i < j < |chains| ==> chains[i] != chains[j])
  }

  lemma ChainsStep(t: Tables, op: Op, ops: seq<Op>, a: string)
    requires ChainsTold(Get(t.accounts, a), ops, a)
    requires a in t.accounts <==> First(ops, TermsOf(a)).Some?
    ensures ChainsTold(Get(Write(t, op).accounts, a), ops + [op], a)
  {
    forall c ensures MarkedOnceThere(ops + [op], a, c) <==>
                     MarkedOnceThere(ops, a, c) || (Marks(op, a, c) && First(ops, TermsOf(a)).Some?)
    {
      MarkedOneMore(ops, op, a, c);
    }
    var row, after := Get(t.accounts, a), Get(Write(t, op).accounts, a);
    if op.MarkDeployed? && Lower(op.address) == a && row.Some? && op.chainId !in row.value.deployedChains {
      assert after.value.deployedChains == row.value.deployedChains + [op.chainId];
    } else {
      assert after.None? || after.value.deployedChains == if row.None? then [] else row.value.deployedChains;
    }
  }

  /** After every run an account's chains are exactly those marked since it exists, each once. */
  lemma {:induction false} DeployedChains(ops: seq<Op>, a: string)
    ensures ChainsTold(Get(Run(ops).tables.accounts, a), ops, a)
  {
    if |ops| > 0 {
      var front, op := ops[..|ops| - 1], ops[|ops| - 1];
      DeployedChains(front, a);
      AccountColumns(front, a);
      ChainsStep(Run(front).tables, op, front, a);
      assert front + [op] == ops;
    }
  }

  /** The operations since the last one that removes. */
  function Since(ops: seq<Op>, removes: Op -> bool): seq<Op> {
    if |ops| == 0 || removes(ops[|ops| - 1]) then []
    else Since(ops[..|ops| - 1], removes) + [ops[|ops| - 1]]
  }

  function Removes(k: DeviceId): Op -> bool {
    (op: Op) => op.DeleteDevice? && Folded(op.device) == k
  }

  function LabelOf(k: DeviceId): Op -> Option<string> {
    (op: Op) => if op.UpsertDevice? && Folded(op.device) == k then Some(op.deviceLabel) else None
  }

  function DeviceCredentialOf(k: DeviceId): Op -> Option<string> {
    (op: Op) => if op.UpsertDevice? && Folded(op.device) == k then NotBlank(op.deviceCredentialId) else None
  }

  /**
   A device is there if it was upserted since it was last deleted, and has the last label and the first credential id,
   not blank, since then.
   */
  lemma {:induction false} DeviceColumns(ops: seq<Op>, k: DeviceId)
    ensures DeviceTold(Get(Run(ops).tables.devices, k), Since(ops, Removes(k)), k)
  {
    if |ops| > 0 {
      var front, op := ops[..|ops| - 1], ops[|ops| - 1];
      DeviceColumns(front, k);
      DeviceStep(Run(front).tables, op, Since(front, Removes(k)), k);
    }
  }

  predicate DeviceTold(row: Option<Device>, life: seq<Op>, k: DeviceId) {
    (Last(life, LabelOf(k)), First(life, DeviceCredentialOf(k))) ==
    if row.None? then (None, None) else (Some(row.value.deviceLabel), NotBlank(row.value.credentialId))
  }

  lemma DeviceStep(t: Tables, op: Op, life: seq<Op>, k: DeviceId)
    requires DeviceTold(Get(t.devices, k), life, k)
    ensures DeviceTold(Get(Write(t, op).devices, k), if Removes(k)(op) then [] else life + [op], k)
  {
    Snoc(life, op, LabelOf(k));
    Snoc(life, op, DeviceCredentialOf(k));
  }

  function Deletes(id: string): Op -> bool {
    (op: Op) => op.DeleteMethod? && op.id == id
  }

  function KeysOf(id: string): Op -> Option<Method> {
    (op: Op) => if op.InsertMethod? && op.id == id then Some(op.m.(credentialId := None)) else None
  }

  function MethodCredentialOf(id: string): Op -> Option<string> {
    (op: Op) => if op.InsertMethod? && op.id == id then op.m.credentialId else None
  }

  /**
   A method is there if it was inserted since it was last deleted, and has the keys of the first insert and the last
   credential id since then.
   */
  lemma {:induction false} MethodColumns(ops: seq<Op>, id: string)
    ensures MethodTold(Get(Run(ops).tables.methods, id), Since(ops, Deletes(id)), id)
  {
    if |ops| > 0 {
      var front, op := ops[..|ops| - 1], ops[|ops| - 1];
      MethodColumns(front, id);
      MethodStep(Run(front).tables, op, Since(front, Deletes(id)), id);
    }
  }

  predicate MethodTold(row: Option<Method>, life: seq<Op>, id: string) {
    (First(life, KeysOf(id)), Last(life, MethodCredentialOf(id))) ==
    if row.None? then (None, None) else (Some(row.value.(credentialId := None)), row.value.credentialId)
  }

  lemma MethodStep(t: Tables, op: Op, life: seq<Op>, id: string)
    requires MethodTold(Get(t.methods, id), life, id)
    ensures MethodTold(Get(Write(t, op).methods, id), if Deletes(id)(op) then [] else life + [op], id)
  {
    Snoc(life, op, KeysOf(id));
    Snoc(life, op, MethodCredentialOf(id));
  }
}
