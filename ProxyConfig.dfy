/**
 * The Xray/V2Ray configuration document as the account layer sees it: an
 * ordered list of inbounds, each with a protocol tag and, when it has one,
 * a `settings.clients` list of `{id, level, email}` records.  Everything
 * else in the document is carried along unchanged as opaque text.
 */
module ProxyConfig {
  import opened Wrappers

  /** One entry of `settings.clients`; `email` holds the account's username. */
  datatype Client = Client(id: string, level: int, email: string)

  /**
   * One inbound: `protocol`, `settings.clients` when that is present, and the
   * inbound's other members (port, stream settings, ...) as opaque text.
   */
  datatype Inbound = Inbound(protocol: string, clients: Option<seq<Client>>, rest: string)

  /**
   * The whole document: `inbounds` when it is an array (`None` stands for a
   * document whose `inbounds` is missing or not an array), and the rest of it.
   */
  datatype Config = Config(inbounds: Option<seq<Inbound>>, rest: string)

  /** Why the document part of account creation refuses. */
  datatype ConfigError =
    | MalformedConfig          // `arquivo.inbounds.find` throws a TypeError
    | NoVlessInbound           // no VLESS inbound with a client list
    | DuplicateUser(user: string)

  /** The inbound `NewUserVPN` looks for: protocol "vless" with a client list. */
  predicate Targeted(ib: Inbound) {
    ib.protocol == "vless" && ib.clients.Some?
  }

  /** `k` is the position of the first targeted inbound. */
  predicate IsFirstTarget(inbounds: seq<Inbound>, k: nat) {
    && k < |inbounds|
    && Targeted(inbounds[k])
    && forall j :: 0 <= j < k ==> !Targeted(inbounds[j])
  }

  /** `inbounds.find(...)`: the position of the first targeted inbound, if any. */
  function FirstVless(inbounds: seq<Inbound>): (r: Option<nat>)
    ensures r.Some? ==> IsFirstTarget(inbounds, r.value)
    ensures r.None? ==> forall j :: 0 <= j < |inbounds| ==> !Targeted(inbounds[j])
  {
    if inbounds == [] then None
    else if Targeted(inbounds[0]) then Some(0)
    else match FirstVless(inbounds[1..])
      case None => None
      case Some(k) => Some(k + 1)
  }

  /** `clients.some(c => c.email === email)`. */
  predicate HasEmail(clients: seq<Client>, email: string): (b: bool)
    ensures b <==> exists c :: c in clients && c.email == email
  {
    exists i :: 0 <= i < |clients| && clients[i].email == email
  }

  /** How many records of `clients` carry `email`. */
  function EmailCount(clients: seq<Client>, email: string): nat {
    if clients == [] then 0
    else EmailCount(clients[..|clients| - 1], email)
         + (if clients[|clients| - 1].email == email then 1 else 0)
  }

  /** The invariant the duplicate check of `NewUserVPN` maintains: at most one record per username. */
  predicate UniqueEmails(clients: seq<Client>) {
    forall i, j :: 0 <= i < j < |clients| ==> clients[i].email != clients[j].email
  }

  /** The record `newV2ray` builds for a new account. */
  function NewV2ray(id: string, email: string): (c: Client)
    ensures c.id == id && c.level == 0 && c.email == email
    ensures HasEmail([c], email)
  {
    Client(id, 0, email)
  }

  /**
   * The document change `NewUserVPN` makes: append `{id, level: 0, email: user}`
   * to the client list of the first VLESS inbound that has one, unless that
   * list already holds `user`.
   */
  function AddClient(doc: Config, user: string, id: string): (r: Result<Config, ConfigError>)
    ensures r == Failure(MalformedConfig) <==> doc.inbounds.None?
    ensures r == Failure(NoVlessInbound) <==>
              doc.inbounds.Some? && forall j :: 0 <= j < |doc.inbounds.value| ==> !Targeted(doc.inbounds.value[j])
    ensures r == Failure(DuplicateUser(user)) <==>
              doc.inbounds.Some?
              && exists k: nat :: IsFirstTarget(doc.inbounds.value, k)
                                 && HasEmail(doc.inbounds.value[k].clients.value, user)
    ensures r.Failure? ==> r.error in {MalformedConfig, NoVlessInbound, DuplicateUser(user)}
    ensures r.Success? ==>
              doc.inbounds.Some? && r.value.inbounds.Some? && r.value.rest == doc.rest
              && |r.value.inbounds.value| == |doc.inbounds.value|
              && exists k: nat ::
                   && IsFirstTarget(doc.inbounds.value, k)
                   && !HasEmail(doc.inbounds.value[k].clients.value, user)
                   && AddedAt(doc.inbounds.value, r.value.inbounds.value, k, NewV2ray(id, user))
  {
    match doc.inbounds
    case None => Failure(MalformedConfig)
    case Some(inbounds) =>
      match FirstVless(inbounds)
      case None => Failure(NoVlessInbound)
      case Some(k) =>
        var clients := inbounds[k].clients.value;
        if HasEmail(clients, user) then Failure(DuplicateUser(user))
        else
          var target := inbounds[k].(clients := Some(clients + [NewV2ray(id, user)]));
          Success(doc.(inbounds := Some(inbounds[k := target])))
  }

  /**
   * `after` is `before` with `c` appended to the client list of inbound `k`
   * and nothing else changed.
   */
  predicate AddedAt(before: seq<Inbound>, after: seq<Inbound>, k: nat, c: Client) {
    && |after| == |before| && k < |before| && before[k].clients.Some?
    && after[k] == before[k].(clients := Some(before[k].clients.value + [c]))
    && forall j :: 0 <= j < |before| && j != k ==> after[j] == before[j]
  }

  /** `clients.filter(c => c.email !== email)`. */
  function WithoutEmail(clients: seq<Client>, email: string): (r: seq<Client>)
    ensures !HasEmail(r, email)
    ensures forall c :: multiset(r)[c] == if c.email == email then 0 else multiset(clients)[c]
    ensures IsSubsequence(r, clients)
  {
    if clients == [] then []
    else
      var tail := WithoutEmail(clients[1..], email);
      assert clients == [clients[0]] + clients[1..];
      if clients[0].email == email then tail else [clients[0]] + tail
  }

  /** `a` is `b` with some elements left out and the rest in their order. */
  predicate IsSubsequence<T(==)>(a: seq<T>, b: seq<T>)
    decreases |b|
  {
    if a == [] then true
    else if b == [] then false
    else (a[0] == b[0] && IsSubsequence(a[1..], b[1..])) || IsSubsequence(a, b[1..])
  }

  /** One inbound after `removerUsuarioSSH`: `user` filtered out of its client list, if it has one. */
  function StripInbound(ib: Inbound, user: string): (r: Inbound)
    ensures r.protocol == ib.protocol && r.rest == ib.rest
    ensures r.clients.Some? == ib.clients.Some?
    ensures r.clients.Some? ==> !HasEmail(r.clients.value, user)
    ensures ib.clients.None? || !HasEmail(ib.clients.value, user) ==> r == ib
  {
    if ib.clients.Some? then
      var kept := WithoutEmail(ib.clients.value, user);
      assert !HasEmail(ib.clients.value, user) ==> kept == ib.clients.value by {
        if !HasEmail(ib.clients.value, user) {
          WithoutAbsentEmail(ib.clients.value, user);
        }
      }
      ib.(clients := Some(kept))
    else ib
  }

  /** Every inbound after `removerUsuarioSSH`. */
  function StripAll(inbounds: seq<Inbound>, user: string): (r: seq<Inbound>)
    ensures |r| == |inbounds|
    ensures forall j :: 0 <= j < |r| && r[j].clients.Some? ==> !HasEmail(r[j].clients.value, user)
    ensures forall j :: 0 <= j < |r| ==>
              && r[j].protocol == inbounds[j].protocol && r[j].rest == inbounds[j].rest
              && r[j].clients.Some? == inbounds[j].clients.Some?
    ensures forall j :: 0 <= j < |r| && inbounds[j].clients.None? ==> r[j] == inbounds[j]
    ensures forall j :: 0 <= j < |r| && inbounds[j].clients.Some? ==>
              r[j].clients.value == WithoutEmail(inbounds[j].clients.value, user)
  {
    seq(|inbounds|, j requires 0 <= j < |inbounds| => StripInbound(inbounds[j], user))
  }

  /**
   * The document change of `removerUsuarioSSH` in full mode: every record
   * for `user` filtered out of every client list.
   */
  function RemoveAccount(doc: Config, user: string): (r: Result<Config, ConfigError>)
    ensures r.Failure? <==> doc.inbounds.None?
    ensures r.Failure? ==> r.error == MalformedConfig
    ensures r.Success? ==>
              && r.value.rest == doc.rest && r.value.inbounds.Some?
              && r.value.inbounds.value == StripAll(doc.inbounds.value, user)
  {
    match doc.inbounds
    case None => Failure(MalformedConfig)
    case Some(inbounds) => Success(doc.(inbounds := Some(StripAll(inbounds, user))))
  }

  /** The `forEach` of `removerUsuarioSSH` over the document's inbounds. */
  method RemoveClientEverywhere(inbounds: seq<Inbound>, user: string) returns (result: seq<Inbound>)
    ensures result == StripAll(inbounds, user)
  {
    result := inbounds;
    var i := 0;
    while i < |result|
      invariant 0 <= i <= |result| == |inbounds|
      invariant forall j :: 0 <= j < i ==> result[j] == StripInbound(inbounds[j], user)
      invariant forall j :: i <= j < |result| ==> result[j] == inbounds[j]
    {
      var ib := result[i];
      if ib.clients.Some? {
        result := result[i := ib.(clients := Some(WithoutEmail(ib.clients.value, user)))];
      }
      assert result[i] == StripInbound(inbounds[i], user);
      i := i + 1;
    }
  }

  /** No record of `clients` carries `email`: filtering it out changes nothing. */
  lemma {:induction false} WithoutAbsentEmail(clients: seq<Client>, email: string)
    requires !HasEmail(clients, email)
    ensures WithoutEmail(clients, email) == clients
  {
    if clients != [] {
      assert clients[0].email != email;
      assert !HasEmail(clients[1..], email) by {
        forall i | 0 <= i < |clients[1..]| ensures clients[1..][i].email != email {
          assert clients[1..][i] == clients[i + 1];
        }
      }
      WithoutAbsentEmail(clients[1..], email);
    }
  }

  /** Filtering an email out a second time changes nothing. */
  lemma WithoutEmailIdempotent(clients: seq<Client>, email: string)
    ensures WithoutEmail(WithoutEmail(clients, email), email) == WithoutEmail(clients, email)
  {
    WithoutAbsentEmail(WithoutEmail(clients, email), email);
  }

  /** Removing an account from the whole document a second time changes nothing. */
  lemma StripAllIdempotent(inbounds: seq<Inbound>, user: string)
    ensures StripAll(StripAll(inbounds, user), user) == StripAll(inbounds, user)
  {
    var once := StripAll(inbounds, user);
    forall j | 0 <= j < |inbounds|
      ensures StripInbound(once[j], user) == once[j]
    {
      if inbounds[j].clients.Some? {
        WithoutEmailIdempotent(inbounds[j].clients.value, user);
      }
    }
  }

  /** A list with no record for `email` counts zero records for it. */
  lemma {:induction false} EmailCountZero(clients: seq<Client>, email: string)
    ensures EmailCount(clients, email) == 0 <==> !HasEmail(clients, email)
  {
    if clients != [] {
      var init := clients[..|clients| - 1];
      EmailCountZero(init, email);
      if HasEmail(init, email) {
        var i :| 0 <= i < |init| && init[i].email == email;
        assert clients[i] == init[i];
      }
      if HasEmail(clients, email) && clients[|clients| - 1].email != email {
        var i :| 0 <= i < |clients| && clients[i].email == email;
        assert init[i] == clients[i];
      }
    }
  }

  /** After a successful `AddClient` the target list holds exactly one record for the user, the new one at the end. */
  lemma AddClientUnique(doc: Config, user: string, id: string)
    requires AddClient(doc, user, id).Success?
    ensures var k := FirstVless(doc.inbounds.value).value;
            var after := AddClient(doc, user, id).value.inbounds.value[k].clients.value;
            && EmailCount(after, user) == 1
            && after[|after| - 1] == Client(id, 0, user)
  {
    var k := FirstVless(doc.inbounds.value).value;
    var before := doc.inbounds.value[k].clients.value;
    var after := AddClient(doc, user, id).value.inbounds.value[k].clients.value;
    assert after == before + [NewV2ray(id, user)];
    assert after[..|after| - 1] == before;
    EmailCountZero(before, user);
  }

  /** `AddClient` keeps the one-record-per-username invariant of the target list. */
  lemma AddClientKeepsUnique(doc: Config, user: string, id: string)
    requires AddClient(doc, user, id).Success?
    requires UniqueEmails(doc.inbounds.value[FirstVless(doc.inbounds.value).value].clients.value)
    ensures var k := FirstVless(doc.inbounds.value).value;
            UniqueEmails(AddClient(doc, user, id).value.inbounds.value[k].clients.value)
  {
    var k := FirstVless(doc.inbounds.value).value;
    var before := doc.inbounds.value[k].clients.value;
    var after := AddClient(doc, user, id).value.inbounds.value[k].clients.value;
    assert after == before + [NewV2ray(id, user)];
    forall i, j | 0 <= i < j < |after| ensures after[i].email != after[j].email {
      if j == |before| {
        assert after[i] == before[i];
      }
    }
  }

  /** Filtering keeps the one-record-per-username invariant. */
  lemma {:induction false} WithoutEmailKeepsUnique(clients: seq<Client>, email: string)
    requires UniqueEmails(clients)
    ensures UniqueEmails(WithoutEmail(clients, email))
  {
    if clients != [] {
      var tail := WithoutEmail(clients[1..], email);
      WithoutEmailKeepsUnique(clients[1..], email);
      if clients[0].email != email {
        var r := [clients[0]] + tail;
        forall i, j | 0 <= i < j < |r| ensures r[i].email != r[j].email {
          if i == 0 {
            assert r[j] in tail;
            assert multiset(tail)[r[j]] > 0;
            assert r[j] in clients[1..];
            var m :| 0 <= m < |clients[1..]| && clients[1..][m] == r[j];
            assert clients[m + 1] == r[j];
          }
        }
      }
    }
  }

  /** Removing an account keeps the first VLESS inbound where it was. */
  lemma StripAllKeepsTarget(inbounds: seq<Inbound>, user: string)
    ensures FirstVless(StripAll(inbounds, user)) == FirstVless(inbounds)
  {
    var after := StripAll(inbounds, user);
    forall j | 0 <= j < |inbounds| ensures Targeted(after[j]) == Targeted(inbounds[j]) { }
    match FirstVless(inbounds)
    case None =>
    case Some(k) =>
      assert IsFirstTarget(after, k);
      FirstTargetUnique(after, k, FirstVless(after).value);
  }

  /** There is at most one first targeted inbound. */
  lemma FirstTargetUnique(inbounds: seq<Inbound>, k: nat, m: nat)
    requires IsFirstTarget(inbounds, k) && IsFirstTarget(inbounds, m)
    ensures k == m
  {
  }

  /** Removing an account from the whole document a second time changes nothing. */
  lemma RemoveAccountIdempotent(doc: Config, user: string)
    requires RemoveAccount(doc, user).Success?
    ensures RemoveAccount(RemoveAccount(doc, user).value, user) == RemoveAccount(doc, user)
  {
    StripAllIdempotent(doc.inbounds.value, user);
  }

  /** Filtering out `email` ignores a record for `email` appended at the end. */
  lemma {:induction false} WithoutEmailAppend(clients: seq<Client>, c: Client, email: string)
    requires c.email == email
    ensures WithoutEmail(clients + [c], email) == WithoutEmail(clients, email)
  {
    if clients == [] {
      assert [] + [c] == [c];
      assert [c][1..] == [];
    } else {
      assert (clients + [c])[1..] == clients[1..] + [c];
      WithoutEmailAppend(clients[1..], c, email);
    }
  }

  /** Deleting an account undoes creating it: the document is as if the client had never been added. */
  lemma RemoveUndoesAdd(doc: Config, user: string, id: string)
    requires AddClient(doc, user, id).Success?
    ensures RemoveAccount(AddClient(doc, user, id).value, user) == RemoveAccount(doc, user)
  {
    var before := doc.inbounds.value;
    var after := AddClient(doc, user, id).value.inbounds.value;
    var k := FirstVless(before).value;
    WithoutEmailAppend(before[k].clients.value, NewV2ray(id, user), user);
    assert StripAll(after, user) == StripAll(before, user);
  }

  /** After deleting an account, creating it again is not refused as a duplicate. */
  lemma AddAfterRemove(doc: Config, user: string, id: string)
    requires doc.inbounds.Some? && FirstVless(doc.inbounds.value).Some?
    ensures AddClient(RemoveAccount(doc, user).value, user, id).Success?
  {
    StripAllKeepsTarget(doc.inbounds.value, user);
  }
}
