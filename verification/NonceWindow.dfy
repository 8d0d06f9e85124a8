/**
 The timestamp window and one-time nonces of signed bundler requests. One request reads one clock value; whether its
 signature matches its message is a property of the request.
 */
module NonceWindow {
  import opened Base
  import opened Text

  const SKEW_MS: real := 300000.0
  const NONCE_TTL_MS: real := 600000.0

  /** `timestamp` is None when it is not a finite number; `signed` says that the signature recovers to the address. */
  datatype Request = Request(address: string, timestamp: Option<real>, nonce: string, signed: bool)

  datatype Denial = UnknownBundler | SkewTooLarge | NonceUsed | BadSignature

  datatype Verdict = Granted | Denied(why: Denial)

  type Nonces = map<(string, string), real>

  function AbsReal(x: real): real {
    if x < 0.0 then -x else x
  }

  function Purged(nonces: Nonces, now: real): Nonces {
    map k | k in nonces && nonces[k] >= now :: nonces[k]
  }

  function KeyOf(r: Request): (string, string) {
    (Lower(r.address), r.nonce)
  }

  /** A nonce belongs to an address, however that is capitalised. */
  lemma SameKeyIff(a: Request, b: Request)
    ensures KeyOf(a) == KeyOf(b) <==> Lower(a.address) == Lower(b.address) && a.nonce == b.nonce
  {
  }

  predicate InWindow(r: Request, skew: real, now: real) {
    r.timestamp.Some? && AbsReal(now - r.timestamp.value) <= skew
  }

  /** The check of one request, and the nonce table it leaves. A nonce is spent before the signature is looked at. */
  function Check(nonces: Nonces, r: Request, registered: bool, skew: real, ttl: real, now: real): (Verdict, Nonces) {
    if !registered then (Denied(UnknownBundler), nonces)
    else if !InWindow(r, skew, now) then (Denied(SkewTooLarge), nonces)
    else
      var purged := Purged(nonces, now);
      if KeyOf(r) in purged then (Denied(NonceUsed), purged)
      else (if r.signed then Granted else Denied(BadSignature), purged[KeyOf(r) := now + ttl])
  }

  class BundlerGate {
    var nonces: Nonces
    const skew: real
    const ttl: real

    constructor ()
      ensures nonces == map[] && skew == SKEW_MS && ttl == NONCE_TTL_MS
    {
      nonces, skew, ttl := map[], SKEW_MS, NONCE_TTL_MS;
    }

    method ConsumeBundlerNonce(address: string, nonce: string, now: real) returns (ok: bool)
      modifies this
      ensures ok == ((Lower(address), nonce) !in Purged(old(nonces), now))
      ensures var purged := Purged(old(nonces), now);
              nonces == if ok then purged[(Lower(address), nonce) := now + ttl] else purged
    {
      nonces := map k | k in nonces && nonces[k] >= now :: nonces[k];
      ok := (Lower(address), nonce) !in nonces;
      if ok { nonces := nonces[(Lower(address), nonce) := now + ttl]; }
    }

    method RequireBundler(r: Request, registered: bool, now: real) returns (verdict: Verdict)
      modifies this
      ensures (verdict, nonces) == Check(old(nonces), r, registered, skew, ttl, now)
    {
      if !registered { return Denied(UnknownBundler); }
      if r.timestamp.None? || AbsReal(now - r.timestamp.value) > skew { return Denied(SkewTooLarge); }
      var unspent := ConsumeBundlerNonce(r.address, r.nonce, now);
      if !unspent { return Denied(NonceUsed); }
      return if r.signed then Granted else Denied(BadSignature);
    }
  }

  // ----- Replays -----

  datatype Arrival = Arrival(r: Request, registered: bool, now: real)

  ghost predicate InOrder(arrivals: seq<Arrival>) {
    forall i, j :: 0 <= i < j < |arrivals| ==> arrivals[i].now <= arrivals[j].now
  }

  function Table(nonces: Nonces, arrivals: seq<Arrival>, skew: real, ttl: real): Nonces {
    if |arrivals| == 0 then nonces
    else
      var a := arrivals[|arrivals| - 1];
      Check(Table(nonces, arrivals[..|arrivals| - 1], skew, ttl), a.r, a.registered, skew, ttl, a.now).1
  }

  predicate Accepted(nonces: Nonces, arrivals: seq<Arrival>, i: nat, skew: real, ttl: real) {
    && i < |arrivals|
    && var a := arrivals[i];
       Check(Table(nonces, arrivals[..i], skew, ttl), a.r, a.registered, skew, ttl, a.now).0 == Granted
  }

  /** The same signed request: its message fixes nonce and timestamp, its signature the address. */
  predicate SameSigned(a: Request, b: Request) {
    KeyOf(a) == KeyOf(b) && a.timestamp == b.timestamp
  }

  /** Nothing that arrives before its expiry removes or shortens a stored nonce. */
  lemma {:induction false} NonceStays(
    nonces: Nonces, arrivals: seq<Arrival>, key: (string, string), expires: real, skew: real, ttl: real)
    requires key in nonces && nonces[key] == expires && forall i :: 0 <= i < |arrivals| ==> arrivals[i].now <= expires
    ensures key in Table(nonces, arrivals, skew, ttl) && Table(nonces, arrivals, skew, ttl)[key] == expires
  {
    if |arrivals| > 0 {
      NonceStays(nonces, arrivals[..|arrivals| - 1], key, expires, skew, ttl);
    }
  }

  lemma {:induction false} TableSplits(nonces: Nonces, arrivals: seq<Arrival>, i: nat, skew: real, ttl: real)
    requires i <= |arrivals|
    ensures Table(nonces, arrivals, skew, ttl) ==
            Table(Table(nonces, arrivals[..i], skew, ttl), arrivals[i..], skew, ttl)
  {
    if i < |arrivals| {
      var n := |arrivals| - 1;
      TableSplits(nonces, arrivals[..n], i, skew, ttl);
      assert arrivals[..n][..i] == arrivals[..i] && arrivals[..n][i..] == arrivals[i..][..n - i];
    } else {
      assert arrivals[..i] == arrivals && arrivals[i..] == [];
    }
  }

  /** With a nonce lifetime of at least twice the window no signed request is accepted twice, whatever else arrives. */
  lemma NoReplay(nonces: Nonces, arrivals: seq<Arrival>, i: nat, j: nat, skew: real, ttl: real)
    requires InOrder(arrivals) && i < j < |arrivals| && ttl >= 2.0 * skew
    requires Accepted(nonces, arrivals, i, skew, ttl) && SameSigned(arrivals[i].r, arrivals[j].r)
    ensures !Accepted(nonces, arrivals, j, skew, ttl)
  {
    var a, b := arrivals[i], arrivals[j];
    var after := Table(nonces, arrivals[..i + 1], skew, ttl);
    assert arrivals[..i + 1][..i] == arrivals[..i];
    assert KeyOf(a.r) in after && after[KeyOf(a.r)] == a.now + ttl;
    if InWindow(b.r, skew, b.now) {
      var between := arrivals[..j][i + 1..];
      TableSplits(nonces, arrivals[..j], i + 1, skew, ttl);
      assert arrivals[..j][..i + 1] == arrivals[..i + 1];
      assert forall k :: 0 <= k < |between| ==> between[k] == arrivals[i + 1 + k];
      NonceStays(after, between, KeyOf(a.r), a.now + ttl, skew, ttl);
    }
  }

  /** With any shorter lifetime a request sent early and replayed late is accepted twice. */
  lemma ShortLifetimeReplays(r: Request, at: real, skew: real, ttl: real)
    requires r.signed && r.timestamp == Some(at) && 0.0 <= ttl < 2.0 * skew
    ensures var run := [Arrival(r, true, at - skew), Arrival(r, true, at + skew)];
            InOrder(run) && Accepted(map[], run, 0, skew, ttl) && Accepted(map[], run, 1, skew, ttl)
  {
    var run := [Arrival(r, true, at - skew), Arrival(r, true, at + skew)];
    assert run[..1][..0] == [] && run[..0] == [];
    assert run[..1] == [run[0]];
    assert Table(map[], run[..0], skew, ttl) == map[];
    assert Table(map[], run[..1], skew, ttl) == Check(map[], r, true, skew, ttl, at - skew).1;
  }

  /** The shipped constants meet the bound, with nothing to spare. */
  lemma ShippedWindowHasNoReplay(nonces: Nonces, arrivals: seq<Arrival>, i: nat, j: nat)
    requires InOrder(arrivals) && i < j < |arrivals| && SameSigned(arrivals[i].r, arrivals[j].r)
    ensures !(Accepted(nonces, arrivals, i, SKEW_MS, NONCE_TTL_MS) &&
              Accepted(nonces, arrivals, j, SKEW_MS, NONCE_TTL_MS))
    ensures SKEW_MS == 5.0 * 60.0 * 1000.0 && NONCE_TTL_MS == 2.0 * SKEW_MS
  {
    if Accepted(nonces, arrivals, i, SKEW_MS, NONCE_TTL_MS) {
      NoReplay(nonces, arrivals, i, j, SKEW_MS, NONCE_TTL_MS);
    }
  }

  // ----- Who is granted -----

  /** A registered arrival in its window spends its nonce, signed or not, unless an earlier one did within `ttl`. */
  ghost predicate Spends(arrivals: seq<Arrival>, j: nat, skew: real, ttl: real)
    requires j < |arrivals|
    decreases j, 1
  {
    var a := arrivals[j];
    a.registered && InWindow(a.r, skew, a.now) && !Spent(arrivals, j, KeyOf(a.r), a.now, skew, ttl)
  }

  /** One of the first `n` arrivals spent this nonce, not longer than `ttl` before this time. */
  ghost predicate Spent(arrivals: seq<Arrival>, n: nat, key: (string, string), now: real, skew: real, ttl: real)
    requires n <= |arrivals|
    decreases n, 0
  {
    exists j :: 0 <= j < n && KeyOf(arrivals[j].r) == key && now <= arrivals[j].now + ttl &&
      Spends(arrivals, j, skew, ttl)
  }

  lemma SpentMore(arrivals: seq<Arrival>, n: nat, key: (string, string), now: real, skew: real, ttl: real)
    requires n < |arrivals|
    ensures Spent(arrivals, n + 1, key, now, skew, ttl) <==>
            Spent(arrivals, n, key, now, skew, ttl) ||
            (KeyOf(arrivals[n].r) == key && now <= arrivals[n].now + ttl && Spends(arrivals, n, skew, ttl))
  {
    if Spent(arrivals, n, key, now, skew, ttl) {
      var j :| 0 <= j < n && KeyOf(arrivals[j].r) == key && now <= arrivals[j].now + ttl &&
               Spends(arrivals, j, skew, ttl);
      assert Spends(arrivals, j, skew, ttl);
    }
  }

  lemma SpentEarlier(arrivals: seq<Arrival>, n: nat, key: (string, string), now: real, t: real, skew: real, ttl: real)
    requires n <= |arrivals| && now <= t && Spent(arrivals, n, key, t, skew, ttl)
    ensures Spent(arrivals, n, key, now, skew, ttl)
  {
    var j :| 0 <= j < n && KeyOf(arrivals[j].r) == key && t <= arrivals[j].now + ttl && Spends(arrivals, j, skew, ttl);
    assert Spends(arrivals, j, skew, ttl);
  }

  predicate Live(table: Nonces, key: (string, string), t: real) {
    key in table && table[key] >= t
  }

  /** What is live after an arrival was live before, or is what it spends. */
  lemma CheckLive(table: Nonces, a: Arrival, key: (string, string), t: real, skew: real, ttl: real)
    requires a.now <= t
    ensures Live(Check(table, a.r, a.registered, skew, ttl, a.now).1, key, t) <==>
            Live(table, key, t) ||
            (key == KeyOf(a.r) && a.registered && InWindow(a.r, skew, a.now) && !Live(table, key, a.now) &&
             t <= a.now + ttl)
  {
  }

  /** The table of a run from the empty one holds a live nonce exactly if the run has spent it. */
  lemma {:induction false} LiveIffSpent(
    arrivals: seq<Arrival>, n: nat, key: (string, string), t: real, skew: real, ttl: real)
    requires InOrder(arrivals) && n <= |arrivals| && forall j :: 0 <= j < n ==> arrivals[j].now <= t
    ensures Live(Table(map[], arrivals[..n], skew, ttl), key, t) <==> Spent(arrivals, n, key, t, skew, ttl)
  {
    if n > 0 {
      var a := arrivals[n - 1];
      assert arrivals[..n][..n - 1] == arrivals[..n - 1];
      LiveIffSpent(arrivals, n - 1, key, t, skew, ttl);
      LiveIffSpent(arrivals, n - 1, KeyOf(a.r), a.now, skew, ttl);
      SpentMore(arrivals, n - 1, key, t, skew, ttl);
      CheckLive(Table(map[], arrivals[..n - 1], skew, ttl), a, key, t, skew, ttl);
      if key == KeyOf(a.r) && Spent(arrivals, n - 1, key, t, skew, ttl) {
        SpentEarlier(arrivals, n - 1, key, a.now, t, skew, ttl);
      }
    }
  }

  function VerdictOn(arrivals: seq<Arrival>, i: nat, skew: real, ttl: real): Verdict
    requires i < |arrivals|
  {
    var a := arrivals[i];
    Check(Table(map[], arrivals[..i], skew, ttl), a.r, a.registered, skew, ttl, a.now).0
  }

  /**
   Over every run from the empty table an arrival is granted exactly if it is registered, signed and in its window, and
   no earlier arrival spent its nonce within `ttl` before it; and what it is denied for is the first of these it lacks.
   */
  lemma GrantedIff(arrivals: seq<Arrival>, i: nat, skew: real, ttl: real)
    requires InOrder(arrivals) && i < |arrivals|
    ensures var (a, verdict) := (arrivals[i], VerdictOn(arrivals, i, skew, ttl));
            var spent := Spent(arrivals, i, KeyOf(a.r), a.now, skew, ttl);
            && (verdict == Granted <==> a.registered && InWindow(a.r, skew, a.now) && !spent && a.r.signed)
            && (verdict == Denied(UnknownBundler) <==> !a.registered)
            && (verdict == Denied(SkewTooLarge) <==> a.registered && !InWindow(a.r, skew, a.now))
            && (verdict == Denied(NonceUsed) <==> a.registered && InWindow(a.r, skew, a.now) && spent)
  {
    LiveIffSpent(arrivals, i, KeyOf(arrivals[i].r), arrivals[i].now, skew, ttl);
  }

  /** An unsigned arrival that nothing else denies spends its nonce all the same: a signed one soon after is denied. */
  lemma UnsignedSpends(arrivals: seq<Arrival>, i: nat, j: nat, skew: real, ttl: real)
    requires InOrder(arrivals) && i < j < |arrivals| && KeyOf(arrivals[i].r) == KeyOf(arrivals[j].r)
    requires VerdictOn(arrivals, i, skew, ttl) == Denied(BadSignature) && arrivals[j].now <= arrivals[i].now + ttl
    ensures VerdictOn(arrivals, j, skew, ttl) != Granted
  {
    GrantedIff(arrivals, i, skew, ttl);
    GrantedIff(arrivals, j, skew, ttl);
    assert Spends(arrivals, i, skew, ttl);
  }

  // ----- What is signed -----

  function CanonicalMessage(httpMethod: string, path: string, bodyHash: string, timestamp: string, nonce: string)
    : string
  {
    Join(["Trustless Commerce bundler request", "Method: " + httpMethod, "Path: " + path, "Body-SHA256: " + bodyHash,
          "Timestamp: " + timestamp, "Nonce: " + nonce], '\n')
  }

  predicate OneLine(s: string) {
    Free(s, '\n')
  }

  /** Header values and paths have no line breaks, so one message belongs to one request only. */
  lemma MessageDeterminesRequest(m: string, p: string, h: string, t: string, n: string,
                                 m': string, p': string, h': string, t': string, n': string)
    requires OneLine(m) && OneLine(p) && OneLine(h) && OneLine(t) && OneLine(n)
    requires OneLine(m') && OneLine(p') && OneLine(h') && OneLine(t') && OneLine(n')
    requires CanonicalMessage(m, p, h, t, n) == CanonicalMessage(m', p', h', t', n')
    ensures (m, p, h, t, n) == (m', p', h', t', n')
  {
    var a := ["Trustless Commerce bundler request", "Method: " + m, "Path: " + p, "Body-SHA256: " + h,
              "Timestamp: " + t, "Nonce: " + n];
    var b := ["Trustless Commerce bundler request", "Method: " + m', "Path: " + p', "Body-SHA256: " + h',
              "Timestamp: " + t', "Nonce: " + n'];
    SplitJoin(a, '\n');
    SplitJoin(b, '\n');
    assert a == b;
    SamePrefixed("Method: ", m, m');
    SamePrefixed("Path: ", p, p');
    SamePrefixed("Body-SHA256: ", h, h');
    SamePrefixed("Timestamp: ", t, t');
    SamePrefixed("Nonce: ", n, n');
  }

  lemma SamePrefixed(prefix: string, a: string, b: string)
    ensures prefix + a == prefix + b ==> a == b
  {
    assert (prefix + a)[|prefix|..] == a && (prefix + b)[|prefix|..] == b;
  }
}
