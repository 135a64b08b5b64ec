/**
 * The account coordinator of `sshAccountManager.js`: it keeps the Xray
 * configuration document (held by a remote config store) and the remote
 * Linux user database in step.  Every remote operation it issues is
 * recorded, in order, in an effect log; what each operation resolves with
 * is supplied by a `Remote` oracle.
 */
module AccountManager {
  import opened Wrappers
  import opened ProxyConfig
  import Presence
  import Listing
  import Expiry

  /** The remote operations the coordinator issues. */
  datatype Effect =
    | ReadConfig                                                     // lerJson
    | WriteConfig(doc: Config)                                       // SalvarJson
    | CreateOsUser(user: string, password: string, days: int, limit: int)  // criarUsuario
    | DaemonReload                                                   // systemctl daemon-reload
    | RestartXray                                                    // systemctl restart xray
    | StatusCheck                                                    // systemctl is-active xray
    | RemoveOsUser(user: string)                                     // the removal script
    | AlterOsUser(user: string, password: string, days: int)         // alterarUsuarioSSH
    | AlterExpiry(user: string, days: int)                           // alterarData
    | ListOsUsers                                                    // getUsers
    | SessionQuery                                                   // the pipeline of `online`
    | PasswordFileQuery                                              // the loop of `listarUsuarios`
    | ExpiryQuery(user: string)                                      // chage -l in `infoLogin`

  /**
   * What each remote operation resolves with, or `None` when its promise
   * rejects.  A command that exits non-zero still resolves with its output.
   */
  type Remote = Effect -> Option<string>

  /** The `data` argument of `NewUserVPN`. */
  datatype NewUser = NewUser(user: string, password: string, days: int, limit: int)

  /** What `NewUserVPN` resolves with. */
  datatype Created = Created(username: string, password: string, days: int, limit: int, uuid: string)

  /** What `removerUsuarioSSH` resolves with: the script's output in edit mode, `true` otherwise. */
  datatype Removal = ScriptOutput(output: string) | Removed

  /** The errors the coordinator passes on to its caller. */
  datatype Error =
    | Refused(reason: ConfigError)       // the document has no usable VLESS inbound, or the user is there
    | NotSerializable                    // validarJsonV2Ray refused the updated document
    | ConnectionFailed                   // a remote operation rejected
    | BadExpiration                      // infoLogin received an unparseable date

  /** The three commands `NewUserVPN` issues together after the write. */
  function Provisioning(req: NewUser): seq<Effect> {
    [CreateOsUser(req.user, req.password, req.days, req.limit), DaemonReload, RestartXray]
  }

  /** An order in which `Promise.all` sets the three commands going. */
  predicate IsLaunchOrder(launch: seq<nat>) {
    && |launch| == 3
    && launch[0] < 3 && launch[1] < 3 && launch[2] < 3
    && launch[0] != launch[1] && launch[0] != launch[2] && launch[1] != launch[2]
  }

  /** The three commands in launch order. */
  function Launched(req: NewUser, launch: seq<nat>): seq<Effect>
    requires IsLaunchOrder(launch)
  {
    var p := Provisioning(req);
    [p[launch[0]], p[launch[1]], p[launch[2]]]
  }

  /**
   * Whatever the launch order, each of the three commands is issued exactly
   * once: three launches, no command twice, and no command other than the three.
   */
  lemma LaunchedOnce(req: NewUser, launch: seq<nat>)
    requires IsLaunchOrder(launch)
    ensures |Launched(req, launch)| == 3
    ensures forall i, j :: 0 <= i < j < 3 ==> Launched(req, launch)[i] != Launched(req, launch)[j]
    ensures forall e :: e in Launched(req, launch) <==> e in Provisioning(req)
  {
    var p, l := Provisioning(req), Launched(req, launch);
    forall e | e in p ensures e in l {
      var t :| 0 <= t < 3 && p[t] == e;
      if t == launch[0] {
        assert l[0] == e;
      } else if t == launch[1] {
        assert l[1] == e;
      } else {
        assert l[2] == e;
      }
    }
  }

  /** The config store and the log of remote operations issued so far. */
  class Panel {
    var config: Config
    var log: seq<Effect>

    constructor (initial: Config)
      ensures config == initial && log == []
    {
      config := initial;
      log := [];
    }

    /** `NewUserVPN`: add the VLESS client, write the document, then provision the OS account. */
    method NewUserVPN(req: NewUser, id: string, serializable: Config -> bool, remote: Remote, launch: seq<nat>)
      returns (r: Result<Created, Error>)
      requires IsLaunchOrder(launch)
      modifies this
      ensures var added := AddClient(old(config), req.user, id);
              if remote(ReadConfig).None? then
                r == Failure(ConnectionFailed) && config == old(config) && log == old(log) + [ReadConfig]
              else if added.Failure? then
                r == Failure(Refused(added.error)) && config == old(config) && log == old(log) + [ReadConfig]
              else if !serializable(added.value) then
                r == Failure(NotSerializable) && config == old(config) && log == old(log) + [ReadConfig]
              else
                var written := added.value;
                if remote(WriteConfig(written)).None? then
                  r == Failure(ConnectionFailed) && config == old(config)
                  && log == old(log) + [ReadConfig] + [WriteConfig(written)]
                else
                  var provisioned := forall e :: e in Provisioning(req) ==> remote(e).Some?;
                  && config == written
                  && log == old(log) + [ReadConfig] + [WriteConfig(written)] + Launched(req, launch)
                            + (if provisioned then [StatusCheck] else [])
                  && r == if provisioned && remote(StatusCheck).Some?
                          then Success(Created(req.user, req.password, req.days, req.limit, id))
                          else Failure(ConnectionFailed)
      ensures r.Success? ==>
                && old(config).inbounds.Some? && FirstVless(old(config).inbounds.value).Some?
                && var k := FirstVless(old(config).inbounds.value).value;
                   && config.inbounds.Some? && k < |config.inbounds.value|
                   && config.inbounds.value[k].clients.Some?
                   && var clients := config.inbounds.value[k].clients.value;
                      && EmailCount(clients, req.user) == 1
                      && clients[|clients| - 1] == Client(r.value.uuid, 0, req.user)
    {
      log := log + [ReadConfig];
      if remote(ReadConfig).None? {
        return Failure(ConnectionFailed);
      }
      r := Stage(req, id, serializable, remote, launch);
    }

    /** The part of `NewUserVPN` after the read: the duplicate check, the push and the validation. */
    method Stage(req: NewUser, id: string, serializable: Config -> bool, remote: Remote, launch: seq<nat>)
      returns (r: Result<Created, Error>)
      requires IsLaunchOrder(launch)
      modifies this
      ensures var added := AddClient(old(config), req.user, id);
              if added.Failure? then
                r == Failure(Refused(added.error)) && config == old(config) && log == old(log)
              else if !serializable(added.value) then
                r == Failure(NotSerializable) && config == old(config) && log == old(log)
              else
                var written := added.value;
                if remote(WriteConfig(written)).None? then
                  r == Failure(ConnectionFailed) && config == old(config)
                  && log == old(log) + [WriteConfig(written)]
                else
                  var provisioned := forall e :: e in Provisioning(req) ==> remote(e).Some?;
                  && config == written
                  && log == old(log) + [WriteConfig(written)] + Launched(req, launch)
                            + (if provisioned then [StatusCheck] else [])
                  && r == if provisioned && remote(StatusCheck).Some?
                          then Success(Created(req.user, req.password, req.days, req.limit, id))
                          else Failure(ConnectionFailed)
      ensures r.Success? ==>
                && old(config).inbounds.Some? && FirstVless(old(config).inbounds.value).Some?
                && var k := FirstVless(old(config).inbounds.value).value;
                   && config.inbounds.Some? && k < |config.inbounds.value|
                   && config.inbounds.value[k].clients.Some?
                   && var clients := config.inbounds.value[k].clients.value;
                      && EmailCount(clients, req.user) == 1
                      && clients[|clients| - 1] == Client(r.value.uuid, 0, req.user)
    {
      var doc := config;
      var added := AddClient(doc, req.user, id);
      if added.Failure? {
        return Failure(Refused(added.error));
      }
      var written := added.value;
      if !serializable(written) {
        return Failure(NotSerializable);
      }
      AddClientUnique(doc, req.user, id);
      r := Commit(written, req, id, remote, launch);
    }

    /** The part of `NewUserVPN` from the write on: `SalvarJson`, then the provisioning. */
    method Commit(written: Config, req: NewUser, id: string, remote: Remote, launch: seq<nat>)
      returns (r: Result<Created, Error>)
      requires IsLaunchOrder(launch)
      modifies this
      ensures if remote(WriteConfig(written)).None? then
                r == Failure(ConnectionFailed) && config == old(config)
                && log == old(log) + [WriteConfig(written)]
              else
                var provisioned := forall e :: e in Provisioning(req) ==> remote(e).Some?;
                && config == written
                && log == old(log) + [WriteConfig(written)] + Launched(req, launch)
                          + (if provisioned then [StatusCheck] else [])
                && r == if provisioned && remote(StatusCheck).Some?
                        then Success(Created(req.user, req.password, req.days, req.limit, id))
                        else Failure(ConnectionFailed)
    {
      log := log + [WriteConfig(written)];
      if remote(WriteConfig(written)).None? {
        return Failure(ConnectionFailed);
      }
      config := written;
      r := Provision(req, id, remote, launch);
    }

    /** The part of `NewUserVPN` after the write: `Promise.all` over the three commands, then the status check. */
    method Provision(req: NewUser, id: string, remote: Remote, launch: seq<nat>) returns (r: Result<Created, Error>)
      requires IsLaunchOrder(launch)
      modifies this`log
      ensures var provisioned := forall e :: e in Provisioning(req) ==> remote(e).Some?;
              && log == old(log) + Launched(req, launch) + (if provisioned then [StatusCheck] else [])
              && r == if provisioned && remote(StatusCheck).Some?
                      then Success(Created(req.user, req.password, req.days, req.limit, id))
                      else Failure(ConnectionFailed)
    {
      var batch := Launched(req, launch);
      log := log + batch;
      var provisioned := remote(batch[0]).Some? && remote(batch[1]).Some? && remote(batch[2]).Some?;
      assert provisioned <==> forall e :: e in Provisioning(req) ==> remote(e).Some? by {
        LaunchedOnce(req, launch);
      }
      if !provisioned {
        return Failure(ConnectionFailed);
      }
      log := log + [StatusCheck];
      if remote(StatusCheck).None? {
        return Failure(ConnectionFailed);
      }
      r := Success(Created(req.user, req.password, req.days, req.limit, id));
    }

    /** `removerUsuarioSSH`: remove the OS account, then, unless editing, the user's VLESS clients. */
    method RemoveUser(user: string, editOnly: bool, remote: Remote) returns (r: Result<Removal, Error>)
      modifies this
      ensures editOnly ==>
                && config == old(config) && log == old(log) + [RemoveOsUser(user)]
                && r == if remote(RemoveOsUser(user)).Some?
                        then Success(ScriptOutput(remote(RemoveOsUser(user)).value))
                        else Failure(ConnectionFailed)
      ensures !editOnly && remote(RemoveOsUser(user)).None? ==>
                r == Failure(ConnectionFailed) && config == old(config) && log == old(log) + [RemoveOsUser(user)]
      ensures !editOnly && remote(RemoveOsUser(user)).Some? && remote(ReadConfig).None? ==>
                r == Failure(ConnectionFailed) && config == old(config)
                && log == old(log) + [RemoveOsUser(user), ReadConfig]
      ensures var stripped := RemoveAccount(old(config), user);
              !editOnly && remote(RemoveOsUser(user)).Some? && remote(ReadConfig).Some? && stripped.Failure? ==>
                r == Failure(Refused(stripped.error)) && config == old(config)
                && log == old(log) + [RemoveOsUser(user), ReadConfig]
      ensures var stripped := RemoveAccount(old(config), user);
              !editOnly && remote(RemoveOsUser(user)).Some? && remote(ReadConfig).Some? && stripped.Success? ==>
                && log == old(log) + [RemoveOsUser(user), ReadConfig, WriteConfig(stripped.value)]
                && if remote(WriteConfig(stripped.value)).Some?
                   then config == stripped.value && r == Success(Removed)
                   else config == old(config) && r == Failure(ConnectionFailed)
      ensures r == Success(Removed) ==>
                && !editOnly && config.inbounds.Some?
                && forall j :: 0 <= j < |config.inbounds.value| && config.inbounds.value[j].clients.Some? ==>
                     !HasEmail(config.inbounds.value[j].clients.value, user)
    {
      log := log + [RemoveOsUser(user)];
      var out := remote(RemoveOsUser(user));
      if editOnly {
        return if out.Some? then Success(ScriptOutput(out.value)) else Failure(ConnectionFailed);
      }
      if out.None? {
        return Failure(ConnectionFailed);
      }
      log := log + [ReadConfig];
      if remote(ReadConfig).None? {
        return Failure(ConnectionFailed);
      }
      var doc := config;
      if doc.inbounds.None? {
        return Failure(Refused(MalformedConfig));
      }
      var inbounds := RemoveClientEverywhere(doc.inbounds.value, user);
      var written := doc.(inbounds := Some(inbounds));
      log := log + [WriteConfig(written)];
      if remote(WriteConfig(written)).None? {
        return Failure(ConnectionFailed);
      }
      config := written;
      r := Success(Removed);
    }

    /** `alterarSenha`: one command changes the OS password and expiry; the document is not touched. */
    method ChangePassword(user: string, password: string, days: int, remote: Remote) returns (r: Result<bool, Error>)
      modifies this
      ensures config == old(config) && log == old(log) + [AlterOsUser(user, password, days)]
      ensures r == if remote(AlterOsUser(user, password, days)).Some? then Success(true) else Failure(ConnectionFailed)
    {
      log := log + [AlterOsUser(user, password, days)];
      r := if remote(AlterOsUser(user, password, days)).Some? then Success(true) else Failure(ConnectionFailed);
    }

    /** `alterarData`: one command changes the OS expiry; resolves with its output. */
    method ChangeExpiry(user: string, days: int, remote: Remote) returns (r: Result<string, Error>)
      modifies this
      ensures config == old(config) && log == old(log) + [AlterExpiry(user, days)]
      ensures r == if remote(AlterExpiry(user, days)).Some? then Success(remote(AlterExpiry(user, days)).value) else Failure(ConnectionFailed)
    {
      log := log + [AlterExpiry(user, days)];
      var out := remote(AlterExpiry(user, days));
      r := if out.Some? then Success(out.value) else Failure(ConnectionFailed);
    }

    /** `getUsers`: the raw list of regular OS accounts. */
    method ListUsers(remote: Remote) returns (r: Result<string, Error>)
      modifies this
      ensures config == old(config) && log == old(log) + [ListOsUsers]
      ensures r == if remote(ListOsUsers).Some? then Success(remote(ListOsUsers).value) else Failure(ConnectionFailed)
    {
      log := log + [ListOsUsers];
      var out := remote(ListOsUsers);
      r := if out.Some? then Success(out.value) else Failure(ConnectionFailed);
    }

    /**
     * `online`: one query, its output decoded into the two username arrays,
     * each grouped into counts; `None` (the `undefined` of the catch block)
     * when the query rejects or the output does not decode.
     */
    method Online(remote: Remote, decode: string -> Option<(seq<string>, seq<string>)>)
      returns (r: Option<Presence.Snapshot>)
      modifies this
      ensures config == old(config) && log == old(log) + [SessionQuery]
      ensures r.None? <==> remote(SessionQuery).None? || decode(remote(SessionQuery).value).None?
      ensures r.Some? ==>
                var lists := decode(remote(SessionQuery).value).value;
                r.value == Presence.Snapshot(Presence.Tallied(lists.0), Presence.Tallied(lists.1))
    {
      log := log + [SessionQuery];
      var out := remote(SessionQuery);
      if out.None? {
        return None;
      }
      var lists := decode(out.value);
      if lists.None? {
        return None;
      }
      var ssh := Presence.Tally(lists.value.0);
      var v2ray := Presence.Tally(lists.value.1);
      r := Some(Presence.Snapshot(ssh, v2ray));
    }

    /** `listarUsuarios`: the password-file listing, parsed; empty when the command rejects. */
    method ListAccounts(remote: Remote) returns (accounts: seq<Listing.Account>)
      modifies this
      ensures config == old(config) && log == old(log) + [PasswordFileQuery]
      ensures accounts == if remote(PasswordFileQuery).Some? then Listing.ParseListing(remote(PasswordFileQuery).value) else []
    {
      log := log + [PasswordFileQuery];
      var out := remote(PasswordFileQuery);
      accounts := if out.Some? then Listing.ParseListing(out.value) else [];
    }

    /** `infoLogin`: query the account's expiry field and classify what came back. */
    method InfoLogin(loginName: string, remote: Remote, parse: Expiry.DateParser)
      returns (r: Result<Expiry.LoginInfo, Error>)
      modifies this
      ensures config == old(config) && log == old(log) + [ExpiryQuery(loginName)]
      ensures remote(ExpiryQuery(loginName)).None? ==> r == Failure(ConnectionFailed)
      ensures remote(ExpiryQuery(loginName)).Some? ==>
                match Expiry.Classify(loginName, remote(ExpiryQuery(loginName)).value, parse)
                case Success(info) => r == Success(info)
                case Failure(_) => r == Failure(BadExpiration)
    {
      log := log + [ExpiryQuery(loginName)];
      var out := remote(ExpiryQuery(loginName));
      if out.None? {
        return Failure(ConnectionFailed);
      }
      var info := Expiry.Classify(loginName, out.value, parse);
      r := if info.Success? then Success(info.value) else Failure(BadExpiration);
    }
  }

  /**
   * A caller's view: creating "alice" against a document with one empty
   * VLESS inbound adds exactly her record; a second attempt only reads the
   * document, is refused, leaves the document as it was and issues no command.
   */
  method CreateTwiceScenario(id: string, id2: string)
  {
    var vless := Inbound("vless", Some([]), "port 443");
    var initial := Config(Some([vless]), "outbounds");
    var expected := Config(Some([Inbound("vless", Some([Client(id, 0, "alice")]), "port 443")]), "outbounds");
    assert FirstVless([vless]) == Some(0);
    var target := Inbound("vless", Some([Client(id, 0, "alice")]), "port 443");
    var none: seq<Client> := [];
    assert NewV2ray(id, "alice") == Client(id, 0, "alice");
    assert none + [Client(id, 0, "alice")] == [Client(id, 0, "alice")];
    assert vless.(clients := Some(none + [NewV2ray(id, "alice")])) == target;
    assert [vless][0 := target] == [target];
    assert !HasEmail([], "alice");
    assert AddClient(initial, "alice", id) == Success(expected);
    var panel := new Panel(initial);
    var up: Remote := (e: Effect) => Some("");
    var ok: Config -> bool := (c: Config) => true;
    var req := NewUser("alice", "p@ss", 30, 2);
    var first := panel.NewUserVPN(req, id, ok, up, [0, 1, 2]);
    assert first == Success(Created("alice", "p@ss", 30, 2, id));
    assert panel.config == expected;
    assert panel.log == [ReadConfig, WriteConfig(panel.config)] + Provisioning(req) + [StatusCheck];
    var written := panel.config;
    var issued := panel.log;
    var second := panel.NewUserVPN(req, id2, ok, up, [2, 1, 0]);
    assert HasEmail([Client(id, 0, "alice")], "alice");
    assert second == Failure(Refused(DuplicateUser("alice")));
    assert panel.config == written;
    assert panel.log == issued + [ReadConfig];
  }
}
