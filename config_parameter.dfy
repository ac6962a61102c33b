/*
 * The configuration object: the list of subscribers it publishes updates
 * to, the command-line scan for a configuration file, the singleton it
 * lives in, and the string decisions that turn configuration values into
 * enumerations and flags.  Reading the YAML file is left out; the parse
 * decisions take the strings it would yield.
 */
module ConfigParameter {
  import opened Wrappers

  datatype ConfigType = QPCONFIG | RQCONFIG | SQCONFIG | WQECONFIG | SGECONFIG

  datatype UpdateOption = CONFIG_REUPDATE | CONFIG_UPDATE_DONE | CONFIG_STOP

  /** A configuration subscriber; subscribers are told apart by identity. */
  class Subscriber {
    const selfConfigType: ConfigType

    constructor (configType: ConfigType)
      ensures selfConfigType == configType
    {
      selfConfigType := configType;
    }
  }

  /**
   * update_config of the five subscriber kinds: each compares the type
   * with its own, does nothing either way, and reports done.
   */
  function UpdateConfig(s: Subscriber, configType: ConfigType): UpdateOption
  {
    if s.selfConfigType == configType then CONFIG_UPDATE_DONE else CONFIG_UPDATE_DONE
  }

  // ---------------------------------------------------------------------
  // The subscriber list

  /** The position of the first `x` in `s`, or |s| when there is none. */
  function IndexOf(s: seq<Subscriber>, x: Subscriber): (i: nat)
    ensures i <= |s|
    ensures i < |s| ==> s[i] == x
    ensures forall j :: 0 <= j < i ==> s[j] != x
  {
    if |s| == 0 then 0
    else if s[0] == x then 0
    else 1 + IndexOf(s[1..], x)
  }

  /** `s` with its first `x` removed, or `s` itself when `x` does not occur. */
  function RemoveFirst(s: seq<Subscriber>, x: Subscriber): seq<Subscriber>
  {
    var i := IndexOf(s, x);
    if i == |s| then s else s[..i] + s[i + 1..]
  }

  /**
   * Removing the first occurrence takes out exactly one copy of `x` and
   * keeps the others in order: a subscriber absent from the list leaves it
   * as it was, and a present one shortens it by one.
   */
  lemma RemoveFirstSpec(s: seq<Subscriber>, x: Subscriber)
    ensures x !in s ==> RemoveFirst(s, x) == s
    ensures x in s ==> |RemoveFirst(s, x)| == |s| - 1
    ensures multiset(RemoveFirst(s, x)) == multiset(s) - multiset{x}
    ensures x in s ==>
              exists i :: 0 <= i < |s| && s[i] == x && x !in s[..i] &&
                          RemoveFirst(s, x) == s[..i] + s[i + 1..]
  {
    var i := IndexOf(s, x);
    if i < |s| {
      assert s == s[..i] + [s[i]] + s[i + 1..];
      assert x !in s[..i];
    } else {
      assert x !in s;
    }
  }

  /** Detaching a subscriber just registered undoes the registration when it was not already there. */
  lemma {:induction false} DetachUndoesRegister(s: seq<Subscriber>, x: Subscriber)
    requires x !in s
    ensures RemoveFirst(s + [x], x) == s
  {
    var i := IndexOf(s + [x], x);
    assert (s + [x])[|s|] == x;
    assert i == |s| && (s + [x])[..|s|] == s && (s + [x])[|s| + 1..] == [];
  }

  /**
   * The result of broadcasting to `subs` from position `i` on: the first
   * answer that is not DONE, or DONE when every subscriber reports DONE.
   */
  function Broadcast(subs: seq<Subscriber>, update: (Subscriber, ConfigType) -> UpdateOption,
                     configType: ConfigType, i: nat): UpdateOption
    requires i <= |subs|
    decreases |subs| - i
  {
    if i == |subs| then CONFIG_UPDATE_DONE
    else if update(subs[i], configType) != CONFIG_UPDATE_DONE then update(subs[i], configType)
    else Broadcast(subs, update, configType, i + 1)
  }

  /**
   * Broadcasting answers DONE exactly when every subscriber does;
   * otherwise it answers what the first dissenting subscriber answered.
   */
  lemma {:induction false} BroadcastFirstDissent(subs: seq<Subscriber>, update: (Subscriber, ConfigType) -> UpdateOption,
                                                 configType: ConfigType, i: nat)
    requires i <= |subs|
    ensures Broadcast(subs, update, configType, i) == CONFIG_UPDATE_DONE <==>
              forall j :: i <= j < |subs| ==> update(subs[j], configType) == CONFIG_UPDATE_DONE
    ensures Broadcast(subs, update, configType, i) != CONFIG_UPDATE_DONE ==>
              exists k :: i <= k < |subs| && Broadcast(subs, update, configType, i) == update(subs[k], configType) &&
                          forall j :: i <= j < k ==> update(subs[j], configType) == CONFIG_UPDATE_DONE
    decreases |subs| - i
  {
    if i < |subs| {
      BroadcastFirstDissent(subs, update, configType, i + 1);
    }
  }

  /** With the library's own subscribers every broadcast answers DONE. */
  lemma {:induction false} BroadcastAlwaysDone(subs: seq<Subscriber>, configType: ConfigType, i: nat)
    requires i <= |subs|
    ensures Broadcast(subs, UpdateConfig, configType, i) == CONFIG_UPDATE_DONE
    decreases |subs| - i
  {
    if i < |subs| {
      BroadcastAlwaysDone(subs, configType, i + 1);
    }
  }

  /** ConfigPublish: the ordered list of subscribers. */
  class ConfigPublish {
    var subscribers: seq<Subscriber>

    constructor ()
      ensures subscribers == []
    {
      subscribers := [];
    }

    /** add_register: appends, even a subscriber already on the list. */
    method AddRegister(subscriber: Subscriber)
      modifies this
      ensures subscribers == old(subscribers) + [subscriber]
    {
      subscribers := subscribers + [subscriber];
    }

    /** detach_publish: finds the first occurrence and erases it, if there is one. */
    method DetachPublish(subscriber: Subscriber)
      modifies this
      ensures subscribers == RemoveFirst(old(subscribers), subscriber)
    {
      var i := 0;
      while i < |subscribers| && subscribers[i] != subscriber
        invariant i <= |subscribers|
        invariant forall j :: 0 <= j < i ==> subscribers[j] != subscriber
      {
        i := i + 1;
      }
      if i < |subscribers| {
        subscribers := subscribers[..i] + subscribers[i + 1..];
      }
    }

    /** broadcast_config: asks each subscriber in order and stops at the first answer that is not DONE. */
    method BroadcastConfig(update: (Subscriber, ConfigType) -> UpdateOption, configType: ConfigType)
      returns (rst: UpdateOption)
      ensures rst == Broadcast(subscribers, update, configType, 0)
    {
      var i := 0;
      while i < |subscribers|
        invariant i <= |subscribers|
        invariant Broadcast(subscribers, update, configType, 0) == Broadcast(subscribers, update, configType, i)
      {
        rst := update(subscribers[i], configType);
        if rst != CONFIG_UPDATE_DONE {
          return;
        }
        i := i + 1;
      }
      return CONFIG_UPDATE_DONE;
    }
  }

  // ---------------------------------------------------------------------
  // The command line

  const DEFAULT_CONFIG_FILE: string := "config.yaml"

  predicate IsConfFlag(a: string)
  {
    a == "-c" || a == "--conf"
  }

  /** The position of the first configuration flag, or |args|. */
  function FirstConfFlag(args: seq<string>): (i: nat)
    ensures i <= |args|
    ensures i < |args| ==> IsConfFlag(args[i])
    ensures forall j :: 0 <= j < i ==> !IsConfFlag(args[j])
  {
    if |args| == 0 then 0
    else if IsConfFlag(args[0]) then 0
    else 1 + FirstConfFlag(args[1..])
  }

  /**
   * The configuration file the scan settles on: the first flag's own text
   * without its first character (the pointer to the flag advanced by one),
   * so "c" or "-conf"; the default when no flag is given.  The argument
   * after the flag is never looked at.
   */
  lemma ConfFileIsFlagTail(args: seq<string>, file: string)
    requires file == (if FirstConfFlag(args) < |args| then args[FirstConfFlag(args)][1..] else DEFAULT_CONFIG_FILE)
    ensures file == DEFAULT_CONFIG_FILE || file == "c" || file == "-conf"
    ensures file == DEFAULT_CONFIG_FILE <==> forall j :: 0 <= j < |args| ==> !IsConfFlag(args[j])
  {
  }

  // ---------------------------------------------------------------------
  // String decisions

  datatype QpType = IBV_QPT_RC | IBV_QPT_DRIVER_PLUS_ONE
  datatype CreateQp = VERBS_QP | RDMACM_QP | UNKNOWN_CREATE_QP_METHOD
  datatype CmEstablish = CM_RDMA_ESTABLISH | CM_TCP_ESTABLISH | CM_UNKNOWN_ESTABLISH

  /**
   * strcmp(s.c_str(), lit) == 0 for a literal without NUL: the comparison
   * stops at the first NUL of `s`, so `s` matches when it starts with `lit`
   * and ends or has a NUL right after it.
   */
  predicate StrcmpEqual(s: string, lit: string)
  {
    |s| >= |lit| && s[..|lit|] == lit && (|s| == |lit| || s[|lit|] == '\0')
  }

  /** The C string of `s` is `lit` exactly when strcmp finds them equal. */
  lemma CStringIs(s: string, lit: string)
    requires '\0' !in lit
    ensures CString(s) == lit <==> StrcmpEqual(s, lit)
  {
    if StrcmpEqual(s, lit) {
      if |s| == |lit| {
        assert s == s[..|lit|];
        CStringAll(s);
      } else {
        CStringStops(s, |lit|);
      }
    }
  }

  /** qp_transport_mode: "RC" is a reliable connection, anything else the value past IBV_QPT_DRIVER. */
  function TransportMode(s: string): (r: QpType)
    ensures r == IBV_QPT_RC <==> StrcmpEqual(s, "RC")
  {
    CStringIs(s, "RC");
    if CString(s) == "RC" then IBV_QPT_RC else IBV_QPT_DRIVER_PLUS_ONE
  }

  /**
   * qp_create_method, with the second comparison's branches swapped as
   * written: "rdma_cm" yields the unknown method and any other string
   * other than "verbs" yields RDMACM_QP.
   */
  function CreateMethod(s: string): (r: CreateQp)
    ensures r == VERBS_QP <==> StrcmpEqual(s, "verbs")
    ensures r == UNKNOWN_CREATE_QP_METHOD <==> StrcmpEqual(s, "rdma_cm")
    ensures r == RDMACM_QP <==> !StrcmpEqual(s, "verbs") && !StrcmpEqual(s, "rdma_cm")
  {
    CStringIs(s, "verbs");
    CStringIs(s, "rdma_cm");
    var c := CString(s);
    if c == "verbs" then VERBS_QP
    else if c != "rdma_cm" then RDMACM_QP
    else UNKNOWN_CREATE_QP_METHOD
  }

  /**
   * connection_method, swapped the same way: "tcp_cm" yields the unknown
   * method and any other string other than "rdma_cm" yields TCP.
   */
  function ConnectionMethod(s: string): (r: CmEstablish)
    ensures r == CM_RDMA_ESTABLISH <==> StrcmpEqual(s, "rdma_cm")
    ensures r == CM_UNKNOWN_ESTABLISH <==> StrcmpEqual(s, "tcp_cm")
    ensures r == CM_TCP_ESTABLISH <==> !StrcmpEqual(s, "rdma_cm") && !StrcmpEqual(s, "tcp_cm")
  {
    CStringIs(s, "rdma_cm");
    CStringIs(s, "tcp_cm");
    var c := CString(s);
    if c == "rdma_cm" then CM_RDMA_ESTABLISH
    else if c != "tcp_cm" then CM_TCP_ESTABLISH
    else CM_UNKNOWN_ESTABLISH
  }

  /** srq, use_inline and use_hugepage: set exactly when the string's C text is "true". */
  function ParseFlag(s: string): (r: bool)
    ensures r <==> StrcmpEqual(s, "true")
  {
    CStringIs(s, "true");
    CString(s) == "true"
  }

  /** A string with an embedded NUL after "true" still sets the flag. */
  lemma ParseFlagStopsAtNul(tail: string)
    ensures ParseFlag("true" + ['\0'] + tail)
    ensures !ParseFlag("true" + tail) <==> |tail| > 0 && tail[0] != '\0'
  {
    assert ("true" + ['\0'] + tail)[..4] == "true";
    assert ("true" + tail)[..4] == "true";
  }

  /** The size of every IP address field. */
  const IP_ADDR_LEN: nat := 128

  /** The characters of a C string: everything before the first NUL. */
  function CString(s: string): (r: string)
    ensures |r| <= |s| && r == s[..|r|]
    ensures '\0' !in r
    ensures |r| < |s| ==> s[|r|] == '\0'
  {
    if |s| == 0 || s[0] == '\0' then [] else [s[0]] + CString(s[1..])
  }

  /**
   * strncpy into a field of `n` characters: the source's characters up to
   * its terminator, cut at `n`, then NUL padding up to `n`.
   */
  function StrNCpy(n: nat, src: string): (r: string)
    ensures |r| == n
  {
    var c := CString(src);
    var k := Min(|c|, n);
    c[..k] + seq(n - k, _ => '\0')
  }

  /**
   * Copying an address into a 128-character field: one shorter than the
   * field reads back unchanged, while one of 128 characters or more
   * fills the field with no terminator.
   */
  lemma StrNCpyAddr(src: string)
    requires '\0' !in src
    ensures |src| < IP_ADDR_LEN ==> CString(StrNCpy(IP_ADDR_LEN, src)) == src
    ensures |src| >= IP_ADDR_LEN ==> StrNCpy(IP_ADDR_LEN, src) == src[..IP_ADDR_LEN] && '\0' !in StrNCpy(IP_ADDR_LEN, src)
  {
    CStringAll(src);
    var r := StrNCpy(IP_ADDR_LEN, src);
    if |src| < IP_ADDR_LEN {
      assert r[|src|] == '\0';
      assert r[..|src|] == src;
      CStringStops(r, |src|);
    }
  }

  /** A string with no NUL is its own C string. */
  lemma {:induction false} CStringAll(s: string)
    requires '\0' !in s
    ensures CString(s) == s
  {
    if |s| > 0 {
      assert '\0' !in s[1..];
      CStringAll(s[1..]);
    }
  }

  /** The C string stops at the first NUL. */
  lemma {:induction false} CStringStops(s: string, k: nat)
    requires k < |s| && s[k] == '\0' && '\0' !in s[..k]
    ensures CString(s) == s[..k]
  {
    if k > 0 {
      assert s[1..][k - 1] == s[k];
      assert s[1..][..k - 1] == s[..k][1..];
      CStringStops(s[1..], k - 1);
    }
  }

  // ---------------------------------------------------------------------
  // The configuration object

  class Config {
    const origParameters: seq<string>
    const yamlConfigFile: string
    const configPublish: ConfigPublish
    const qpConfig: Subscriber
    const rqConfig: Subscriber
    const sqConfig: Subscriber
    const wqeConfig: Subscriber
    const sgeConfig: Subscriber

    /**
     * What the constructor leaves for the command line `args`: the
     * arguments kept, the file named by the first configuration flag (or
     * the default), and the five subscribers registered in order, each
     * with its own configuration type.
     */
    ghost predicate Built(args: seq<string>)
      reads this, configPublish
    {
      origParameters == args &&
      yamlConfigFile == (if FirstConfFlag(args) < |args| then args[FirstConfFlag(args)][1..] else DEFAULT_CONFIG_FILE) &&
      configPublish.subscribers == [qpConfig, rqConfig, sqConfig, wqeConfig, sgeConfig] &&
      qpConfig.selfConfigType == QPCONFIG && rqConfig.selfConfigType == RQCONFIG &&
      sqConfig.selfConfigType == SQCONFIG && wqeConfig.selfConfigType == WQECONFIG &&
      sgeConfig.selfConfigType == SGECONFIG
    }

    /**
     * The constructor taking the command line: keeps the arguments, scans
     * them for the configuration flag, and registers the five subscribers.
     */
    constructor (args: seq<string>)
      ensures Built(args)
      ensures fresh(configPublish) && fresh(qpConfig) && fresh(rqConfig) && fresh(sqConfig) && fresh(wqeConfig) && fresh(sgeConfig)
    {
      origParameters := args;
      qpConfig := new Subscriber(QPCONFIG);
      rqConfig := new Subscriber(RQCONFIG);
      sqConfig := new Subscriber(SQCONFIG);
      wqeConfig := new Subscriber(WQECONFIG);
      sgeConfig := new Subscriber(SGECONFIG);
      configPublish := new ConfigPublish();
      var file := ScanConfFlag(args);
      yamlConfigFile := file;
      new;
      AddRegisters();
    }

    /** add_registers: the five subscribers, in the order qp, rq, sq, wqe, sge. */
    method AddRegisters()
      modifies configPublish
      ensures configPublish.subscribers == old(configPublish.subscribers) + [qpConfig, rqConfig, sqConfig, wqeConfig, sgeConfig]
    {
      configPublish.AddRegister(qpConfig);
      configPublish.AddRegister(rqConfig);
      configPublish.AddRegister(sqConfig);
      configPublish.AddRegister(wqeConfig);
      configPublish.AddRegister(sgeConfig);
    }
  }

  /** The constructor's scan for the first "-c" or "--conf". */
  method ScanConfFlag(args: seq<string>) returns (file: string)
    ensures file == if FirstConfFlag(args) < |args| then args[FirstConfFlag(args)][1..] else DEFAULT_CONFIG_FILE
  {
    file := DEFAULT_CONFIG_FILE;
    var i := 0;
    while i < |args|
      invariant i <= |args|
      invariant forall j :: 0 <= j < i ==> !IsConfFlag(args[j])
    {
      if args[i] == "-c" || args[i] == "--conf" {
        file := args[i][1..];
        break;
      }
      i := i + 1;
    }
  }

  /** The process-wide configuration object, created at most once. */
  class ConfigSingleton {
    var configobj: Option<Config>

    constructor ()
      ensures configobj == None
    {
      configobj := None;
    }

    /** GetConfigObj. */
    function GetConfigObj(): Option<Config>
      reads this
    {
      configobj
    }

    /** CreateConfigObj: builds the object on the first call; later calls return it and ignore their arguments. */
    method CreateConfigObj(args: seq<string>) returns (obj: Config)
      modifies this
      ensures configobj == Some(obj)
      ensures old(configobj).Some? ==> obj == old(configobj).value
      ensures old(configobj).None? ==> fresh(obj) && fresh(obj.configPublish) && obj.Built(args)
    {
      if configobj.None? {
        var c := new Config(args);
        configobj := Some(c);
      }
      obj := configobj.value;
    }
  }

  /**
   * A second CreateConfigObj with a different command line returns the
   * first object, which still holds the first command line.
   */
  method CreateTwice(first: seq<string>, second: seq<string>) returns (a: seq<string>, b: seq<string>, same: bool)
    ensures same && a == first && b == first
  {
    var holder := new ConfigSingleton();
    var o1 := holder.CreateConfigObj(first);
    var o2 := holder.CreateConfigObj(second);
    same := o1 == o2;
    a, b := o1.origParameters, o2.origParameters;
  }

  /**
   * A fresh configuration object's broadcast reaches its five subscribers
   * and answers DONE, and detaching one leaves the other four in order.
   */
  method BroadcastOnFreshConfig(args: seq<string>, configType: ConfigType)
    returns (rst: UpdateOption, remaining: nat)
    ensures rst == CONFIG_UPDATE_DONE && remaining == 4
  {
    var config := new Config(args);
    rst := config.configPublish.BroadcastConfig(UpdateConfig, configType);
    BroadcastAlwaysDone(config.configPublish.subscribers, configType, 0);
    RemoveFirstSpec(config.configPublish.subscribers, config.sqConfig);
    config.configPublish.DetachPublish(config.sqConfig);
    remaining := |config.configPublish.subscribers|;
  }
}
