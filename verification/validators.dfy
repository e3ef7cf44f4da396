/**
 * The structural validators of the shared configuration library. Each one
 * takes plain values and returns a `Verdict`, Go's `(bool, ValidationError)`.
 */
module Validators {
  import opened Wrappers
  import opened GoStrings
  import opened ValidationErrors
  import opened Patterns

  /**
   * The configuration object as the validators read it: only its certificate
   * set, a map from certificate name to certificate material that may be nil.
   */
  datatype Options<Cert> = Options(certificates: Option<map<string, Cert>>)

  // ---- presence

  /** `ValidateRequiredString`: the string must not be empty. */
  function ValidateRequiredString(input: string, field: string, fgName: string): (v: Verdict)
    ensures v.ok <==> input != ""
    ensures Conforms(v, fgName)
    ensures !v.ok ==> v.err.tags == [field] && v.err.message == field + " is required"
  {
    if input == "" then Fail([field], fgName, field + " is required") else PASS
  }

  /** `ValidateRequiredObject`: the object must not be nil. */
  function ValidateRequiredObject<T>(input: Option<T>, field: string, fgName: string): (v: Verdict)
    ensures v.ok <==> input.Some?
    ensures Conforms(v, fgName)
    ensures !v.ok ==> v.err.tags == [field] && v.err.message == field + " is required"
  {
    match input
    case None => Fail([field], fgName, field + " is required")
    case Some(_) => PASS
  }

  /** The two required checks agree when the empty string is read as the absent value. */
  lemma RequiredStringIsRequiredObject(input: string, field: string, fgName: string)
    ensures ValidateRequiredString(input, field, fgName)
         == ValidateRequiredObject(if input == "" then None else Some(input), field, fgName)
  {
  }

  // ---- choice

  /** `ValidateAtLeastOneOfBool`: some input must be true. */
  method ValidateAtLeastOneOfBool(inputs: seq<bool>, fields: seq<string>, fgName: string) returns (v: Verdict)
    ensures v.ok <==> exists i :: 0 <= i < |inputs| && inputs[i]
    ensures Conforms(v, fgName)
    ensures !v.ok ==> (v.err.tags == fields
                       && v.err.message == "At least one of " + Join(fields, ",") + " must be enabled")
  {
    var atLeastOne := false;
    for i := 0 to |inputs|
      invariant !atLeastOne
      invariant forall j :: 0 <= j < i ==> !inputs[j]
    {
      if inputs[i] {
        atLeastOne := true;
        break;
      }
    }
    if !atLeastOne {
      return Fail(fields, fgName, "At least one of " + Join(fields, ",") + " must be enabled");
    }
    return PASS;
  }

  /** `ValidateAtLeastOneOfString`: some input must be non-empty. */
  method ValidateAtLeastOneOfString(inputs: seq<string>, fields: seq<string>, fgName: string) returns (v: Verdict)
    ensures v.ok <==> exists i :: 0 <= i < |inputs| && inputs[i] != ""
    ensures Conforms(v, fgName)
    ensures !v.ok ==> (v.err.tags == fields
                       && v.err.message == "At least one of " + Join(fields, ",") + " must be present")
  {
    var atLeastOne := false;
    for i := 0 to |inputs|
      invariant !atLeastOne
      invariant forall j :: 0 <= j < i ==> inputs[j] == ""
    {
      if inputs[i] != "" {
        atLeastOne := true;
        break;
      }
    }
    if !atLeastOne {
      return Fail(fields, fgName, "At least one of " + Join(fields, ",") + " must be present");
    }
    return PASS;
  }

  /** `ValidateIsOneOfString`: the input must equal one of the options. */
  method ValidateIsOneOfString(input: string, options: seq<string>, field: string, fgName: string) returns (v: Verdict)
    ensures v.ok <==> input in options
    ensures Conforms(v, fgName)
    ensures !v.ok ==> (v.err.tags == [field]
                       && v.err.message == field + " must be one of " + Join(options, ",") + ".")
  {
    var isOneOf := false;
    for i := 0 to |options|
      invariant !isOneOf
      invariant input !in options[..i]
    {
      if input == options[i] {
        isOneOf := true;
        break;
      }
    }
    if !isOneOf {
      assert options[..|options|] == options;
      return Fail([field], fgName, field + " must be one of " + Join(options, ",") + ".");
    }
    return PASS;
  }

  /**
   * A caller's view of the choice checks: with nothing to choose from,
   * at-least-one-of fails and its message joins the fields with commas.
   */
  method NothingEnabledScenario()
  {
    var fields := ["a", "b"];
    assert Join(fields, ",") == "a,b" by {
      assert fields[1..] == ["b"];
    }
    var v := ValidateAtLeastOneOfBool([], fields, "g");
    assert !v.ok && v.err.message == "At least one of " + "a,b" + " must be enabled";
  }

  /** One enabled input is enough. */
  method OneEnabledScenario()
  {
    var inputs := [false, true];
    var v := ValidateAtLeastOneOfBool(inputs, ["a", "b"], "g");
    assert inputs[1];
    assert v.ok;
  }

  /** The failure lists the fields verbatim, so an empty field list gives a failure with no tags. */
  method UntaggedFailureScenario()
  {
    var v := ValidateAtLeastOneOfString(["", ""], [], "g");
    assert !v.ok && v.err.tags == [];
  }

  // ---- format

  /**
   * `ValidateIsHostname`: after the spaces at both ends are cut off, the
   * input must be host characters, optionally followed by a colon and a port.
   */
  function ValidateIsHostname(input: string, field: string, fgName: string): (v: Verdict)
    ensures v.ok <==> InHostnameLanguage(TrimSpaces(input))
    ensures Conforms(v, fgName)
    ensures !v.ok ==> v.err.tags == [field] && v.err.message == field + " must be of type Hostname"
  {
    MatchesHostnameIsLanguage(TrimSpaces(input));
    if !MatchesHostname(TrimSpaces(input)) then Fail([field], fgName, field + " must be of type Hostname")
    else PASS
  }

  /** An input of spaces only, the empty input among them, is not a hostname. */
  lemma BlankIsNotHostname(input: string, field: string, fgName: string)
    requires forall k :: 0 <= k < |input| ==> input[k] == ' '
    ensures !ValidateIsHostname(input, field, fgName).ok
  {
    AllSpacesTrimToEmpty(input);
  }

  /** A hostname with two colons is rejected, wherever the colons are and whatever surrounds them. */
  lemma TwoColonsAreNotHostname(input: string, j: nat, k: nat, field: string, fgName: string)
    requires j < k < |TrimSpaces(input)|
    requires TrimSpaces(input)[j] == ':' && TrimSpaces(input)[k] == ':'
    ensures !ValidateIsHostname(input, field, fgName).ok
  {
    var s := TrimSpaces(input);
    MatchesHostnameIsLanguage(s);
    if MatchesHostname(s) { HostnameHasOneColonAtMost(s, j, k); }
  }

  /** The spaces around a hostname do not change the verdict. */
  lemma HostnameIgnoresSurroundingSpaces(before: string, host: string, after: string, field: string, fgName: string)
    requires forall k :: 0 <= k < |before| ==> before[k] == ' '
    requires forall k :: 0 <= k < |after| ==> after[k] == ' '
    requires Unpadded(host)
    ensures ValidateIsHostname(before + host + after, field, fgName).ok <==> InHostnameLanguage(host)
  {
    TrimSpacesOfPadded(before, host, after);
  }

  /**
   * `ValidateTimePattern`: the input must be one or more digits followed by
   * one of the units `w`, `m`, `d`, `h`, `s`. The source counts the matches
   * of the anchored expression and demands exactly one; an anchored
   * expression that cannot match the empty string matches a string once or
   * not at all, so that count is one exactly when the whole input matches.
   */
  function ValidateTimePattern(input: string, field: string, fgName: string): (v: Verdict)
    ensures v.ok <==> InTimeLanguage(input)
    ensures Conforms(v, fgName)
    ensures !v.ok ==> (v.err.tags == [field]
                       && v.err.message == field + " must have the regex pattern ^[0-9]+(w|m|d|h|s)$")
  {
    MatchesTimePatternIsLanguage(input);
    if !MatchesTimePattern(input) then Fail([field], fgName, field + " must have the regex pattern ^[0-9]+(w|m|d|h|s)$")
    else PASS
  }

  /** A time pattern needs its number, needs its unit, and takes nothing after the unit. */
  lemma TimePatternShape(digits: string, unit: char, extra: string, field: string, fgName: string)
    requires AllDigits(digits) && IsTimeUnit(unit)
    ensures ValidateTimePattern(digits + [unit], field, fgName).ok <==> digits != ""
    ensures !ValidateTimePattern(digits, field, fgName).ok
    ensures extra != "" ==> !ValidateTimePattern(digits + [unit] + extra, field, fgName).ok
  {
    var s := digits + [unit];
    assert s[..|digits|] == digits;
    if extra != "" {
      var u := digits + [unit] + extra;
      assert u[|digits|] == unit;
    }
  }

  // ---- certificates

  /**
   * The position of the first required name that is not a key of `certs`,
   * or the length of `names` when every name is a key.
   */
  function FirstMissing<Cert>(names: seq<string>, certs: map<string, Cert>): (k: nat)
    ensures k <= |names|
    ensures forall j :: 0 <= j < k ==> names[j] in certs
    ensures k < |names| ==> names[k] !in certs
  {
    if names == [] then 0
    else if names[0] !in certs then 0
    else 1 + FirstMissing(names[1..], certs)
  }

  /**
   * `ValidateCertsPresent`: a nil certificate set fails whatever is
   * required; otherwise the first required name in list order that is not
   * in the set fails, and the set passes when it holds every required name.
   */
  method ValidateCertsPresent<Cert>(opts: Options<Cert>, requiredCertNames: seq<string>, fgName: string) returns (v: Verdict)
    ensures Conforms(v, fgName)
    ensures !v.ok ==> v.err.tags == ["Certificates"]
    ensures opts.certificates.None? ==> !v.ok && v.err.message == "Certificates are required for SSL but are not present"
    ensures opts.certificates.Some? ==>
              (v.ok <==> forall j :: 0 <= j < |requiredCertNames| ==> requiredCertNames[j] in opts.certificates.value)
    ensures opts.certificates.Some? && !v.ok ==>
              var k := FirstMissing(requiredCertNames, opts.certificates.value);
              k < |requiredCertNames|
              && v.err.message == "Certificate " + requiredCertNames[k] + " is required for " + fgName + " ."
  {
    if opts.certificates.None? {
      return Fail(["Certificates"], fgName, "Certificates are required for SSL but are not present");
    }
    var certs := opts.certificates.value;
    for i := 0 to |requiredCertNames|
      invariant forall j :: 0 <= j < i ==> requiredCertNames[j] in certs
    {
      var certName := requiredCertNames[i];
      if certName !in certs {
        return Fail(["Certificates"], fgName, "Certificate " + certName + " is required for " + fgName + " .");
      }
    }
    return PASS;
  }

  /** A caller's view of the certificate check: a nil set fails even when nothing is required. */
  method NilCertificateSetScenario()
  {
    var nilSet: Options<bv8> := Options(None);
    var v := ValidateCertsPresent(nilSet, [], "TLS");
    assert !v.ok;
  }

  /** An empty set passes when nothing is required. */
  method EmptyCertificateSetScenario()
  {
    var emptySet: Options<bv8> := Options(Some(map[]));
    var v := ValidateCertsPresent(emptySet, [], "TLS");
    assert v.ok;
  }

  /** A set holding only `ca` fails on `client`, not on `ca`. */
  method MissingClientCertificateScenario(ca: bv8)
  {
    var onlyCa := map["ca" := ca];
    var names := ["ca", "client"];
    assert names[0] in onlyCa && names[1] !in onlyCa;
    var v := ValidateCertsPresent(Options(Some(onlyCa)), names, "TLS");
    assert FirstMissing(names, onlyCa) == 1;
    assert !v.ok && v.err.message == "Certificate " + names[1] + " is required for TLS .";
  }

  // ---- reachability

  /** The dial timeout of the reachability check, three seconds. */
  const DIAL_TIMEOUT_MILLIS := 3000

  /** A connection attempt: a plain TCP dial, or a TLS dial with the client configuration. */
  datatype Dial<Config> =
    | TcpDial(address: string, timeoutMillis: nat)
    | TlsDial(address: string, timeoutMillis: nat, config: Config)

  /**
   * What the reachability check does: return a verdict after the dials it
   * made, in order, or stop on a nil dereference when the input does not
   * parse as a URL (the parse error is discarded and the nil URL read).
   */
  datatype Reachability<Config> =
    | Returned(verdict: Verdict, dials: seq<Dial<Config>>)
    | NilDereference

  /** The dial address: the input without a leading `https://`, then without a leading `http://`. */
  function DialAddress(input: string): (address: string)
    ensures |address| <= |input| && address == input[|input| - |address|..]
    ensures !HasPrefix(input, "https://") && !HasPrefix(input, "http://") ==> address == input
  {
    TrimPrefix(TrimPrefix(input, "https://"), "http://")
  }

  /** A `https://` or `http://` URL is dialled at what follows the scheme. */
  lemma DialAddressOfUrl(host: string)
    requires !HasPrefix(host, "http://")
    ensures DialAddress("https://" + host) == host
    ensures DialAddress("http://" + host) == host
  {
    TrimPrefixOfConcat("https://", host);
    TrimPrefixOfConcat("http://", host);
    HttpIsNotHttps(host);
  }

  /** A string that starts with `http://` does not start with `https://`. */
  lemma HttpIsNotHttps(rest: string)
    ensures !HasPrefix("http://" + rest, "https://")
  {
    assert ("http://" + rest)[4] == ':';
  }

  /** Both prefixes go when `https://` is followed by `http://`. */
  lemma DialAddressStripsBoth(host: string)
    ensures DialAddress("https://" + ("http://" + host)) == host
  {
    TrimPrefixOfConcat("https://", "http://" + host);
    TrimPrefixOfConcat("http://", host);
  }

  /** Only the first prefix goes when `http://` is followed by `https://`: `https://` is tried first. */
  lemma DialAddressStripsOnce(host: string)
    ensures DialAddress("http://" + ("https://" + host)) == "https://" + host
  {
    HttpIsNotHttps("https://" + host);
    TrimPrefixOfConcat("http://", "https://" + host);
  }

  /**
   * `ValidateHostIsReachable`, with the world it touches passed in:
   * `parsedScheme` is the scheme `url.Parse` reports for the input (None
   * when it reports an error), `getTlsConfig` builds the client TLS
   * configuration from the options, and `connect` makes one attempt and
   * gives the error text when it fails. An `http` URL is dialled over TCP,
   * an `https` URL over TLS after the configuration is built, and any other
   * scheme passes without a dial.
   */
  function ValidateHostIsReachable<Cert, Config>(
    opts: Options<Cert>, input: string, field: string, fgName: string,
    parsedScheme: Option<string>,
    getTlsConfig: Options<Cert> -> Result<Config, string>,
    connect: Dial<Config> -> Option<string>): (r: Reachability<Config>)
    ensures r.NilDereference? <==> parsedScheme.None?
    ensures r.Returned? ==> Conforms(r.verdict, fgName) && (!r.verdict.ok ==> r.verdict.err.tags == [field])
    ensures r.Returned? ==> |r.dials| <= 1
    ensures r.Returned? && parsedScheme.value != "http" && parsedScheme.value != "https" ==>
              r.verdict.ok && r.dials == []
    ensures r.Returned? && parsedScheme.value == "http" ==>
              var dial := TcpDial(DialAddress(input), DIAL_TIMEOUT_MILLIS);
              r.dials == [dial]
              && (r.verdict.ok <==> connect(dial).None?)
              && (!r.verdict.ok ==> r.verdict.err.message == connect(dial).value)
    ensures r.Returned? && parsedScheme.value == "https" && getTlsConfig(opts).Failure? ==>
              !r.verdict.ok && r.dials == [] && r.verdict.err.message == getTlsConfig(opts).error
    ensures r.Returned? && parsedScheme.value == "https" && getTlsConfig(opts).Success? ==>
              var dial := TlsDial(DialAddress(input), DIAL_TIMEOUT_MILLIS, getTlsConfig(opts).value);
              r.dials == [dial]
              && (r.verdict.ok <==> connect(dial).None?)
              && (!r.verdict.ok ==> r.verdict.err.message == "Cannot reach " + input + ". Error: " + connect(dial).value)
  {
    match parsedScheme
    case None => NilDereference
    case Some(scheme) =>
      var url := DialAddress(input);
      if scheme == "http" then
        var dial := TcpDial(url, DIAL_TIMEOUT_MILLIS);
        match connect(dial)
        case Some(e) => Returned(Fail([field], fgName, e), [dial])
        case None => Returned(PASS, [dial])
      else if scheme == "https" then
        match getTlsConfig(opts)
        case Failure(e) => Returned(Fail([field], fgName, e), [])
        case Success(config) =>
          var dial := TlsDial(url, DIAL_TIMEOUT_MILLIS, config);
          match connect(dial)
          case Some(e) => Returned(Fail([field], fgName, "Cannot reach " + input + ". Error: " + e), [dial])
          case None => Returned(PASS, [dial])
      else
        Returned(PASS, [])
  }

  /** A scheme other than `http` and `https` passes without touching the network, whatever the dials would say. */
  lemma UnknownSchemePassesUndialled<Cert, Config>(
    opts: Options<Cert>, input: string, field: string, fgName: string, scheme: string,
    getTlsConfig: Options<Cert> -> Result<Config, string>,
    connect: Dial<Config> -> Option<string>, connect': Dial<Config> -> Option<string>)
    requires scheme != "http" && scheme != "https"
    ensures ValidateHostIsReachable(opts, input, field, fgName, Some(scheme), getTlsConfig, connect)
         == ValidateHostIsReachable(opts, input, field, fgName, Some(scheme), getTlsConfig, connect')
         == Returned(PASS, [])
  {
  }
}
