/**
  Node identity of a Snowflake generator (`SnowflakeProperties`): the worker id and
  the datacenter id each come from, in priority order, the configured property,
  the `WORKER_ID` / `DATACENTER_ID` environment variable parsed as a `long`, and a
  fallback. The worker-id fallback is the last byte of the local host's address
  read unsigned, mod 32 (1 when the lookup fails); the datacenter-id fallback is 1.

  The process environment and the local-host lookup are inputs here: an
  `Environment` map stands for `System.getenv`, and a `LocalHost` value for the
  result of `InetAddress.getLocalHost().getAddress()` (`None` when it throws).
 */
module NodeIdentity {
  import opened JavaLang

  /** The process environment, as `System.getenv` sees it. */
  type Environment = map<string, string>

  /** The local host's raw address bytes, or `None` when the lookup throws. */
  type LocalHost = Option<seq<Byte>>

  const WorkerIdVariable: string := "WORKER_ID"
  const DatacenterIdVariable: string := "DATACENTER_ID"

  /** Worker id used when the local-host lookup fails. */
  const LookupFailureWorkerId: Long := 1

  /** Datacenter id used when neither configuration nor environment gives one. */
  const DefaultDatacenterId: Long := 1

  /** Number of distinct worker ids the address fallback can produce. */
  const WorkerIdModulus: int := 32

  /** The outcome of a getter: a value, or the `NumberFormatException` of `Long.parseLong`. */
  datatype IdResult = Ok(value: Long) | NumberFormatError(variable: string, text: string)

  /** `System.getenv(name)`: `None` is `null`. */
  function GetEnv(env: Environment, name: string): Option<string> {
    if name in env then Some(env[name]) else None
  }

  /**
    `generateWorkerIdFormIp`: the last address byte read unsigned, mod 32. An
    exception anywhere in the block, whether from the lookup itself or from
    indexing an empty address, yields 1. The result is the residue of the last
    (signed) byte modulo 32: masking with 0xFF first is what keeps Java's `%`
    from returning a negative value for bytes 128..255.
   */
  function WorkerIdFromAddress(host: LocalHost): (r: Long)
    ensures 0 <= r < WorkerIdModulus
    ensures host.None? || |host.value| == 0 ==> r == LookupFailureWorkerId
    ensures host.Some? && |host.value| > 0 ==> r == host.value[|host.value| - 1] % WorkerIdModulus
  {
    match host
    case None => LookupFailureWorkerId
    case Some(bytes) =>
      if |bytes| == 0 then LookupFailureWorkerId
      else UnsignedByte(bytes[|bytes| - 1]) % WorkerIdModulus
  }

  /**
    `getWorkerId`: the configured value if there is one; otherwise `WORKER_ID`
    parsed as a `long` (a malformed value is an error, there is no fallback);
    otherwise the address fallback.
   */
  function ResolveWorkerId(configured: Option<Long>, env: Environment, host: LocalHost): (r: IdResult)
    ensures r.NumberFormatError? <==>
              configured.None? && WorkerIdVariable in env && ParseLong(env[WorkerIdVariable]).None?
    ensures r.NumberFormatError? ==> r.variable == WorkerIdVariable && r.text == env[WorkerIdVariable]
    ensures configured.Some? ==> r == Ok(configured.value)
    ensures configured.None? && WorkerIdVariable in env && ParseLong(env[WorkerIdVariable]).Some? ==>
              r == Ok(ParseLong(env[WorkerIdVariable]).value)
    ensures configured.None? && WorkerIdVariable !in env ==>
              r == Ok(WorkerIdFromAddress(host)) && 0 <= r.value < WorkerIdModulus
    ensures r.Ok? && !(0 <= r.value < WorkerIdModulus) ==> configured.Some? || WorkerIdVariable in env
  {
    if configured.Some? then Ok(configured.value)
    else
      match GetEnv(env, WorkerIdVariable)
      case Some(text) =>
        (match ParseLong(text)
         case Some(n) => Ok(n)
         case None => NumberFormatError(WorkerIdVariable, text))
      case None => Ok(WorkerIdFromAddress(host))
  }

  /**
    `getDatacenterId`: the configured value if there is one; otherwise
    `DATACENTER_ID` parsed as a `long` (a malformed value is an error);
    otherwise 1.
   */
  function ResolveDatacenterId(configured: Option<Long>, env: Environment): (r: IdResult)
    ensures r.NumberFormatError? <==>
              configured.None? && DatacenterIdVariable in env && ParseLong(env[DatacenterIdVariable]).None?
    ensures r.NumberFormatError? ==> r.variable == DatacenterIdVariable && r.text == env[DatacenterIdVariable]
    ensures configured.Some? ==> r == Ok(configured.value)
    ensures configured.None? && DatacenterIdVariable in env && ParseLong(env[DatacenterIdVariable]).Some? ==>
              r == Ok(ParseLong(env[DatacenterIdVariable]).value)
    ensures configured.None? && DatacenterIdVariable !in env ==> r == Ok(DefaultDatacenterId)
  {
    if configured.Some? then Ok(configured.value)
    else
      match GetEnv(env, DatacenterIdVariable)
      case Some(text) =>
        (match ParseLong(text)
         case Some(n) => Ok(n)
         case None => NumberFormatError(DatacenterIdVariable, text))
      case None => Ok(DefaultDatacenterId)
  }

  // ---------------------------------------------------------------------------
  // Priority order
  // ---------------------------------------------------------------------------

  /** A configured worker id wins over the environment and the address, whatever they hold. */
  lemma ConfiguredWorkerIdWins(v: Long, env1: Environment, host1: LocalHost, env2: Environment, host2: LocalHost)
    ensures ResolveWorkerId(Some(v), env1, host1) == ResolveWorkerId(Some(v), env2, host2) == Ok(v)
  {
  }

  /**
    Without a configured value, `WORKER_ID` holding the decimal text of any
    `long` `n` resolves to `n`, whatever the address; nothing brings it into [0, 31].
   */
  lemma EnvironmentWorkerIdWins(env: Environment, host1: LocalHost, host2: LocalHost, n: Long)
    requires WorkerIdVariable in env && env[WorkerIdVariable] == ToDecimal(n)
    ensures ResolveWorkerId(None, env, host1) == ResolveWorkerId(None, env, host2) == Ok(n)
  {
    ParseLongToDecimal(n);
  }

  /** A non-numeric `WORKER_ID` is an error, not a fall-through to the address. */
  lemma MalformedWorkerIdFails(env: Environment, host: LocalHost, k: nat)
    requires WorkerIdVariable in env
    requires var text := env[WorkerIdVariable];
      k < |text| && !IsDigit(text[k]) && !(k == 0 && (text[0] == '-' || text[0] == '+'))
    ensures ResolveWorkerId(None, env, host) == NumberFormatError(WorkerIdVariable, env[WorkerIdVariable])
  {
    ParseLongRejectsNonDigit(env[WorkerIdVariable], k);
  }

  /** A configured datacenter id wins over the environment. */
  lemma ConfiguredDatacenterIdWins(v: Long, env1: Environment, env2: Environment)
    ensures ResolveDatacenterId(Some(v), env1) == ResolveDatacenterId(Some(v), env2) == Ok(v)
  {
  }

  /** Without a configured value, `DATACENTER_ID` holding the decimal text of any `long` resolves to it. */
  lemma EnvironmentDatacenterIdWins(env: Environment, n: Long)
    requires DatacenterIdVariable in env && env[DatacenterIdVariable] == ToDecimal(n)
    ensures ResolveDatacenterId(None, env) == Ok(n)
  {
    ParseLongToDecimal(n);
  }

  /** A non-numeric `DATACENTER_ID` is an error, not a fall-through to the default. */
  lemma MalformedDatacenterIdFails(env: Environment, k: nat)
    requires DatacenterIdVariable in env
    requires var text := env[DatacenterIdVariable];
      k < |text| && !IsDigit(text[k]) && !(k == 0 && (text[0] == '-' || text[0] == '+'))
    ensures ResolveDatacenterId(None, env) == NumberFormatError(DatacenterIdVariable, env[DatacenterIdVariable])
  {
    ParseLongRejectsNonDigit(env[DatacenterIdVariable], k);
  }

  /**
    Worked cases: configured 7 beats `WORKER_ID=9`; `WORKER_ID=9` alone gives 9;
    padded text such as `007` and `+3` is read as its value;
    with neither, host 192.168.1.37 gives 37 mod 32 = 5, and host 192.168.1.255
    (last byte -1 as a Java byte) gives 31. Hosts .5 and .37 share worker id 5.
   */
  lemma ResolutionExamples()
    ensures ResolveWorkerId(Some(7), map[WorkerIdVariable := "9"], None) == Ok(7)
    ensures ResolveWorkerId(None, map[WorkerIdVariable := "9"], None) == Ok(9)
    ensures ResolveWorkerId(None, map[], Some([-64, -88, 1, 37])) == Ok(5)
    ensures ResolveWorkerId(None, map[], Some([-64, -88, 1, 5])) == Ok(5)
    ensures ResolveWorkerId(None, map[], Some([-64, -88, 1, -1])) == Ok(31)
    ensures ResolveWorkerId(None, map[], None) == Ok(1)
    ensures ResolveWorkerId(None, map[WorkerIdVariable := "-3"], None) == Ok(-3)
    ensures ResolveWorkerId(None, map[WorkerIdVariable := "007"], None) == Ok(7)
    ensures ResolveDatacenterId(None, map[DatacenterIdVariable := "+3"]) == Ok(3)
    ensures ResolveDatacenterId(None, map[DatacenterIdVariable := "x"]) == NumberFormatError(DatacenterIdVariable, "x")
  {
    assert Zeros(2) == "00" && NatToDigits(7) == "7";
    ParseLongLeadingZeros("", 2, 7);
    assert "" + (Zeros(2) + NatToDigits(7)) == "007";
    assert Zeros(0) == "" && NatToDigits(3) == "3";
    ParseLongLeadingZeros("+", 0, 3);
    assert "+" + (Zeros(0) + NatToDigits(3)) == "+3";
    var e9 := map[WorkerIdVariable := "9"];
    assert ToDecimal(9) == "9";
    EnvironmentWorkerIdWins(e9, None, None, 9);
    var e3 := map[WorkerIdVariable := "-3"];
    assert ToDecimal(-3) == "-3";
    EnvironmentWorkerIdWins(e3, None, None, -3);
    MalformedDatacenterIdFails(map[DatacenterIdVariable := "x"], 0);
  }

  // ---------------------------------------------------------------------------
  // The properties object
  // ---------------------------------------------------------------------------

  /** The `common.snowflake` configuration properties; `None` is an unset (null) property. */
  class SnowflakeProperties {
    var workerId: Option<Long>
    var datacenterId: Option<Long>

    constructor ()
      ensures workerId == None && datacenterId == None
    {
      workerId := None;
      datacenterId := None;
    }

    /** `getWorkerId`: delegates to `ResolveWorkerId` with the `workerId` property. */
    function GetWorkerId(env: Environment, host: LocalHost): IdResult
      reads this
    {
      ResolveWorkerId(workerId, env, host)
    }

    /** `getDatacenterId`: delegates to `ResolveDatacenterId` with the `datacenterId` property. */
    function GetDatacenterId(env: Environment): IdResult
      reads this
    {
      ResolveDatacenterId(datacenterId, env)
    }

    /** `setWorkerId`; after setting a non-null value, `getWorkerId` returns it in every environment. */
    method SetWorkerId(v: Option<Long>)
      modifies this
      ensures workerId == v && datacenterId == old(datacenterId)
      ensures v.Some? ==> forall env, host :: GetWorkerId(env, host) == Ok(v.value)
    {
      workerId := v;
    }

    /** `setDatacenterId`; after setting a non-null value, `getDatacenterId` returns it in every environment. */
    method SetDatacenterId(v: Option<Long>)
      modifies this
      ensures datacenterId == v && workerId == old(workerId)
      ensures v.Some? ==> forall env :: GetDatacenterId(env) == Ok(v.value)
    {
      datacenterId := v;
    }
  }
}
