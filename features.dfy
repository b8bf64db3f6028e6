/**
 * Feature names of src/srcfeatures.rs: a case-insensitive parser onto
 * twenty-eight features in four categories, and the set of enabled
 * features.
 */
module Features {
  import opened Wrappers
  import opened Text

  datatype CompressionAlgorithm = Gzip | Bzip2 | Zstd | Lz4 | Brotli
  datatype NetworkProtocol = Http | Https | Ftp | Tcp | Udp | Websocket | Smtp | Pop3 | Imap
  datatype SecurityFeature =
    | SignatureVerification | Sandbox | Firewall | Encryption
    | Authorization | Authentication | DataMasking | RateLimiting
  datatype LoggingFramework = File | Console | Database | Remote | Syslog | EventTracing

  datatype Feature =
    | Compression(compression: CompressionAlgorithm)
    | Network(network: NetworkProtocol)
    | Security(security: SecurityFeature)
    | Logging(logging: LoggingFramework)

  /** The lower-case name `from_str` accepts for each feature. */
  function Name(f: Feature): string {
    match f
    case Compression(Gzip) => "gzip"
    case Compression(Bzip2) => "bzip2"
    case Compression(Zstd) => "zstd"
    case Compression(Lz4) => "lz4"
    case Compression(Brotli) => "brotli"
    case Network(Http) => "http"
    case Network(Https) => "https"
    case Network(Ftp) => "ftp"
    case Network(Tcp) => "tcp"
    case Network(Udp) => "udp"
    case Network(Websocket) => "websocket"
    case Network(Smtp) => "smtp"
    case Network(Pop3) => "pop3"
    case Network(Imap) => "imap"
    case Security(SignatureVerification) => "signature_verification"
    case Security(Sandbox) => "sandbox"
    case Security(Firewall) => "firewall"
    case Security(Encryption) => "encryption"
    case Security(Authorization) => "authorization"
    case Security(Authentication) => "authentication"
    case Security(DataMasking) => "data_masking"
    case Security(RateLimiting) => "rate_limiting"
    case Logging(File) => "file_logging"
    case Logging(Console) => "console_logging"
    case Logging(Database) => "database_logging"
    case Logging(Remote) => "remote_logging"
    case Logging(Syslog) => "syslog_logging"
    case Logging(EventTracing) => "event_tracing"
  }

  /** The feature a lower-case name denotes, if any: the arms of `from_str`'s match. */
  function Named(t: string): Option<Feature> {
    match t
    case "gzip" => Some(Compression(Gzip))
    case "bzip2" => Some(Compression(Bzip2))
    case "zstd" => Some(Compression(Zstd))
    case "lz4" => Some(Compression(Lz4))
    case "brotli" => Some(Compression(Brotli))
    case "http" => Some(Network(Http))
    case "https" => Some(Network(Https))
    case "ftp" => Some(Network(Ftp))
    case "tcp" => Some(Network(Tcp))
    case "udp" => Some(Network(Udp))
    case "websocket" => Some(Network(Websocket))
    case "smtp" => Some(Network(Smtp))
    case "pop3" => Some(Network(Pop3))
    case "imap" => Some(Network(Imap))
    case "signature_verification" => Some(Security(SignatureVerification))
    case "sandbox" => Some(Security(Sandbox))
    case "firewall" => Some(Security(Firewall))
    case "encryption" => Some(Security(Encryption))
    case "authorization" => Some(Security(Authorization))
    case "authentication" => Some(Security(Authentication))
    case "data_masking" => Some(Security(DataMasking))
    case "rate_limiting" => Some(Security(RateLimiting))
    case "file_logging" => Some(Logging(File))
    case "console_logging" => Some(Logging(Console))
    case "database_logging" => Some(Logging(Database))
    case "remote_logging" => Some(Logging(Remote))
    case "syslog_logging" => Some(Logging(Syslog))
    case "event_tracing" => Some(Logging(EventTracing))
    case _ => None
  }

  function UnknownFeature(s: string): string {
    "Bilinmeyen özellik: " + s
  }

  /** `Feature::from_str`: the name is lower-cased before the lookup; the error quotes the original text. */
  function FromStr(s: string): Result<Feature, string> {
    match Named(ToLower(s))
    case Some(f) => Ok(f)
    case None => Err(UnknownFeature(s))
  }

  // ---------------------------------------------------------------- parsing properties

  /** Text made of lower-case letters, digits and underscores, as every feature name is. */
  predicate LowerText(s: string) {
    forall k :: 0 <= k < |s| ==> 'a' <= s[k] <= 'z' || '0' <= s[k] <= '9' || s[k] == '_'
  }

  lemma ToLowerOfLowerText(s: string)
    requires LowerText(s)
    ensures ToLower(s) == s
  {
  }

  /** `ToLower(s) == t`, character by character. */
  lemma ToLowerIs(s: string, t: string)
    requires |s| == |t| && forall k :: 0 <= k < |s| ==> LowerChar(s[k]) == t[k]
    ensures ToLower(s) == t
  {
  }

  lemma NamedCompression(c: CompressionAlgorithm)
    ensures Named(Name(Compression(c))) == Some(Compression(c))
  {
  }

  lemma LowerCompression(c: CompressionAlgorithm)
    ensures LowerText(Name(Compression(c)))
  {
  }

  lemma NamedNetwork(n: NetworkProtocol)
    ensures Named(Name(Network(n))) == Some(Network(n))
  {
  }

  lemma LowerNetwork(n: NetworkProtocol)
    ensures LowerText(Name(Network(n)))
  {
  }

  lemma NamedSecurity(s: SecurityFeature)
    ensures Named(Name(Security(s))) == Some(Security(s))
  {
  }

  lemma LowerSecurity(s: SecurityFeature)
    ensures LowerText(Name(Security(s)))
  {
    if s.SignatureVerification? || s.Sandbox? || s.Firewall? || s.Encryption? {
      LowerSecurityControls(s);
    } else {
      LowerSecurityPolicies(s);
    }
  }

  lemma LowerSecurityControls(s: SecurityFeature)
    requires s.SignatureVerification? || s.Sandbox? || s.Firewall? || s.Encryption?
    ensures LowerText(Name(Security(s)))
  {
  }

  lemma LowerSecurityPolicies(s: SecurityFeature)
    requires s.Authorization? || s.Authentication? || s.DataMasking? || s.RateLimiting?
    ensures LowerText(Name(Security(s)))
  {
  }

  lemma NamedLogging(l: LoggingFramework)
    ensures Named(Name(Logging(l))) == Some(Logging(l))
  {
  }

  lemma LowerLogging(l: LoggingFramework)
    ensures LowerText(Name(Logging(l)))
  {
    if l.File? || l.Console? || l.Database? {
      LowerLocalLogging(l);
    } else {
      LowerRemoteLogging(l);
    }
  }

  lemma LowerLocalLogging(l: LoggingFramework)
    requires l.File? || l.Console? || l.Database?
    ensures LowerText(Name(Logging(l)))
  {
  }

  lemma LowerRemoteLogging(l: LoggingFramework)
    requires l.Remote? || l.Syslog? || l.EventTracing?
    ensures LowerText(Name(Logging(l)))
  {
  }

  /** Every feature's name is lower case and denotes that feature. */
  lemma NamedName(f: Feature)
    ensures Named(Name(f)) == Some(f)
    ensures ToLower(Name(f)) == Name(f)
  {
    match f
    case Compression(c) => NamedCompression(c); LowerCompression(c);
    case Network(n) => NamedNetwork(n); LowerNetwork(n);
    case Security(s) => NamedSecurity(s); LowerSecurity(s);
    case Logging(l) => NamedLogging(l); LowerLogging(l);
    ToLowerOfLowerText(Name(f));
  }

  lemma NameOfNamedCompression(t: string, f: Feature)
    requires Named(t) == Some(f) && f.Compression?
    ensures t == Name(f)
  {
  }

  lemma NameOfNamedNetwork(t: string, f: Feature)
    requires Named(t) == Some(f) && f.Network?
    ensures t == Name(f)
  {
  }

  lemma NameOfNamedSecurity(t: string, f: Feature)
    requires Named(t) == Some(f) && f.Security?
    ensures t == Name(f)
  {
  }

  lemma NameOfNamedLogging(t: string, f: Feature)
    requires Named(t) == Some(f) && f.Logging?
    ensures t == Name(f)
  {
  }

  /** `Named` and `Name` are inverse: a text denotes a feature exactly when it is that feature's name. */
  lemma NamedIffName(t: string, f: Feature)
    ensures Named(t) == Some(f) <==> t == Name(f)
  {
    NamedName(f);
    if Named(t) == Some(f) {
      match f
      case Compression(_) => NameOfNamedCompression(t, f);
      case Network(_) => NameOfNamedNetwork(t, f);
      case Security(_) => NameOfNamedSecurity(t, f);
      case Logging(_) => NameOfNamedLogging(t, f);
    }
  }

  /** Distinct features have distinct names: the 28 arms of the match are all different. */
  lemma NameInjective(f: Feature, g: Feature)
    requires Name(f) == Name(g)
    ensures f == g
  {
    NamedName(f);
    NamedName(g);
  }

  lemma LowerCharIdempotent(c: char)
    ensures LowerChar(LowerChar(c)) == LowerChar(c)
  {
  }

  lemma ToLowerIdempotent(s: string)
    ensures ToLower(ToLower(s)) == ToLower(s)
  {
    forall k | 0 <= k < |s|
      ensures ToLower(ToLower(s))[k] == ToLower(s)[k]
    {
      LowerCharIdempotent(s[k]);
    }
  }

  /** Parsing a feature's name gives that feature back. */
  lemma FromStrName(f: Feature)
    ensures FromStr(Name(f)) == Ok(f)
  {
    NamedName(f);
  }

  /**
   * `from_str` succeeds exactly on the texts whose lower-case form is a
   * feature's name, and then yields that feature; otherwise the error quotes
   * the text as given.
   */
  lemma FromStrSpec(s: string)
    ensures FromStr(s).Ok? <==> exists f :: ToLower(s) == Name(f)
    ensures FromStr(s).Ok? ==> Name(FromStr(s).value) == ToLower(s)
    ensures FromStr(s).Err? ==> FromStr(s).error == UnknownFeature(s)
  {
    match Named(ToLower(s))
    case Some(f) =>
      NamedIffName(ToLower(s), f);
    case None =>
      forall f | ToLower(s) == Name(f)
        ensures false
      {
        NamedIffName(ToLower(s), f);
      }
  }

  /** Parsing ignores case: a text parses as its lower-case form does. */
  lemma FromStrCaseInsensitive(s: string)
    ensures FromStr(s).Ok? <==> FromStr(ToLower(s)).Ok?
    ensures FromStr(s).Ok? ==> FromStr(s) == FromStr(ToLower(s))
  {
    ToLowerIdempotent(s);
  }

  /** A mixed-case spelling from the source's own tests. */
  lemma MixedCaseBzip2()
    ensures FromStr("Bzip2") == Ok(Compression(Bzip2))
  {
    ToLowerIs("Bzip2", "bzip2");
    FromStrName(Compression(Bzip2));
  }

  /** An upper-case spelling from the source's own tests. */
  lemma UpperCaseHttp()
    ensures FromStr("HTTP") == Ok(Network(Http))
  {
    ToLowerIs("HTTP", "http");
    FromStrName(Network(Http));
  }

  // ---------------------------------------------------------------- the feature set

  /**
   * What `from_strs` computes with the parser `parse`: the values of the
   * names in order, or the error of the first name that does not parse.
   */
  function ParseEach<T>(names: seq<string>, parse: string -> Result<T, string>): Result<set<T>, string> {
    if names == [] then Ok({})
    else match ParseEach(names[..|names| - 1], parse)
      case Err(e0) => Err(e0)
      case Ok(fs) =>
        (match parse(names[|names| - 1])
         case Err(e) => Err(e)
         case Ok(f) => Ok(fs + {f}))
  }

  function ParseAll(names: seq<string>): Result<set<Feature>, string> {
    ParseEach(names, FromStr)
  }

  /**
   * The fold fails exactly when some name does not parse, with the error of
   * the first such name; otherwise the set holds exactly the parsed values.
   */
  lemma ParseEachSpec<T(!new)>(names: seq<string>, parse: string -> Result<T, string>)
    ensures ParseEach(names, parse).Err? <==> exists i :: 0 <= i < |names| && parse(names[i]).Err?
    ensures ParseEach(names, parse).Err? ==>
              exists i :: 0 <= i < |names| && parse(names[i]).Err? && ParseEach(names, parse).error == parse(names[i]).error
                          && forall j :: 0 <= j < i ==> parse(names[j]).Ok?
    ensures ParseEach(names, parse).Ok? ==>
              forall f :: f in ParseEach(names, parse).value <==> exists i :: 0 <= i < |names| && parse(names[i]) == Ok(f)
  {
    ParseEachFails(names, parse);
    ParseEachMembers(names, parse);
  }

  /** The failing half: the error of the first name that does not parse. */
  lemma {:induction false} ParseEachFails<T>(names: seq<string>, parse: string -> Result<T, string>)
    ensures ParseEach(names, parse).Err? <==> exists i :: 0 <= i < |names| && parse(names[i]).Err?
    ensures ParseEach(names, parse).Err? ==>
              exists i :: 0 <= i < |names| && parse(names[i]).Err? && ParseEach(names, parse).error == parse(names[i]).error
                          && forall j :: 0 <= j < i ==> parse(names[j]).Ok?
  {
    if names != [] {
      var n := |names| - 1;
      var front := names[..n];
      ParseEachFails(front, parse);
      assert forall i :: 0 <= i < n ==> front[i] == names[i];
      if ParseEach(front, parse).Err? {
        var i :| 0 <= i < n && parse(front[i]).Err? && ParseEach(front, parse).error == parse(front[i]).error
                 && forall j :: 0 <= j < i ==> parse(front[j]).Ok?;
        assert parse(names[i]).Err?;
      } else if parse(names[n]).Err? {
        assert forall j :: 0 <= j < n ==> parse(names[j]).Ok?;
      }
    }
  }

  /** The succeeding half: the set holds exactly the values of the names. */
  lemma {:induction false} ParseEachMembers<T(!new)>(names: seq<string>, parse: string -> Result<T, string>)
    ensures ParseEach(names, parse).Ok? ==>
              forall f :: f in ParseEach(names, parse).value <==> exists i :: 0 <= i < |names| && parse(names[i]) == Ok(f)
  {
    if names != [] && ParseEach(names, parse).Ok? {
      var n := |names| - 1;
      var front := names[..n];
      ParseEachMembers(front, parse);
      var fs := ParseEach(front, parse).value;
      forall f
        ensures f in ParseEach(names, parse).value <==> exists i :: 0 <= i < |names| && parse(names[i]) == Ok(f)
      {
        if f in fs {
          var i :| 0 <= i < n && parse(front[i]) == Ok(f);
          assert parse(names[i]) == Ok(f);
        }
        if exists i :: 0 <= i < |names| && parse(names[i]) == Ok(f) {
          var i :| 0 <= i < |names| && parse(names[i]) == Ok(f);
          if i < n {
            assert parse(front[i]) == Ok(f);
          }
        }
      }
    }
  }

  /** Once a prefix fails, every longer prefix fails with the same error. */
  lemma {:induction false} ParseEachErrorSticks<T>(names: seq<string>, parse: string -> Result<T, string>, k: nat)
    requires k <= |names|
    requires ParseEach(names[..k], parse).Err?
    ensures ParseEach(names, parse) == ParseEach(names[..k], parse)
    decreases |names| - k
  {
    if k == |names| {
      assert names[..k] == names;
    } else {
      assert names[..k + 1][..k] == names[..k];
      ParseEachErrorSticks(names, parse, k + 1);
    }
  }

  /**
   * `from_strs` fails exactly when some name is unknown, with the error for
   * the first unknown name; otherwise exactly the named features are enabled.
   */
  lemma ParseAllSpec(names: seq<string>)
    ensures ParseAll(names).Err? <==> exists i :: 0 <= i < |names| && FromStr(names[i]).Err?
    ensures ParseAll(names).Err? ==>
              exists i :: 0 <= i < |names| && ParseAll(names).error == UnknownFeature(names[i])
                          && forall j :: 0 <= j < i ==> FromStr(names[j]).Ok?
    ensures ParseAll(names).Ok? ==>
              forall f :: f in ParseAll(names).value <==> exists i :: 0 <= i < |names| && Name(f) == ToLower(names[i])
  {
    ParseEachSpec(names, FromStr);
    if ParseAll(names).Err? {
      var i :| 0 <= i < |names| && FromStr(names[i]).Err? && ParseAll(names).error == FromStr(names[i]).error
               && forall j :: 0 <= j < i ==> FromStr(names[j]).Ok?;
      FromStrSpec(names[i]);
    } else {
      forall f
        ensures f in ParseAll(names).value <==> exists i :: 0 <= i < |names| && Name(f) == ToLower(names[i])
      {
        if exists i :: 0 <= i < |names| && Name(f) == ToLower(names[i]) {
          var i :| 0 <= i < |names| && Name(f) == ToLower(names[i]);
          NamedIffName(ToLower(names[i]), f);
          assert FromStr(names[i]) == Ok(f);
        }
        if f in ParseAll(names).value {
          var i :| 0 <= i < |names| && FromStr(names[i]) == Ok(f);
          FromStrSpec(names[i]);
        }
      }
    }
  }

  class FeatureSet {
    var features: set<Feature>

    /** `FeatureSet::new`: nothing enabled. */
    constructor()
      ensures features == {}
    {
      features := {};
    }

    /** `enable`: insert into the set. */
    method Enable(f: Feature)
      modifies this
      ensures features == old(features) + {f}
    {
      features := features + {f};
    }

    /** `disable`: remove from the set. */
    method Disable(f: Feature)
      modifies this
      ensures features == old(features) - {f}
    {
      features := features - {f};
    }

    /** `is_enabled`: membership. */
    predicate IsEnabled(f: Feature)
      reads this
    {
      f in features
    }

    /** `enabled_features`: every enabled feature once, in the set's iteration order. */
    method EnabledFeatures() returns (r: seq<Feature>)
      ensures forall f :: f in r <==> f in features
      ensures forall i, j :: 0 <= i < j < |r| ==> r[i] != r[j]
      ensures |r| == |features|
    {
      r := [];
      var rest := features;
      while rest != {}
        invariant rest <= features
        invariant forall f :: f in r <==> f in features - rest
        invariant forall i, j :: 0 <= i < j < |r| ==> r[i] != r[j]
        invariant |r| + |rest| == |features|
        decreases |rest|
      {
        var f :| f in rest;
        assert f !in r;
        assert |rest - {f}| == |rest| - 1;
        r := r + [f];
        rest := rest - {f};
      }
    }

    /** `FeatureSet::from_strs`: parse each name in order and enable it, stopping at the first unknown name. */
    static method FromStrs(names: seq<string>) returns (r: Result<FeatureSet, string>)
      ensures r.Err? <==> ParseAll(names).Err?
      ensures r.Err? ==> r.error == ParseAll(names).error
      ensures r.Ok? ==> fresh(r.value) && r.value.features == ParseAll(names).value
    {
      var featureSet := new FeatureSet();
      var i := 0;
      while i < |names|
        invariant 0 <= i <= |names|
        invariant ParseEach(names[..i], FromStr) == Ok(featureSet.features)
        modifies featureSet
      {
        var f := FromStr(names[i]);
        assert names[..i + 1][..i] == names[..i] && names[..i + 1][i] == names[i];
        if f.Err? {
          assert ParseEach(names[..i + 1], FromStr) == Err(f.error);
          ParseEachErrorSticks(names, FromStr, i + 1);
          return Err(f.error);
        }
        featureSet.Enable(f.value);
        i := i + 1;
      }
      assert names[..i] == names;
      return Ok(featureSet);
    }
  }
}
