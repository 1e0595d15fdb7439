/**
 * `load_configuration` and the start of `main`: the environments come from a
 * configuration file when it exists, and otherwise there are none, so only
 * custom connections can be made. Configured options are strings.
 */
module Config {
  import opened Wrappers
  import opened Builtins
  import opened Flags
  import opened Connect
  import opened EnvMenu

  /** One section of the configuration file: an environment and its options. */
  datatype Section = Section(name: string, fields: map<string, string>)

  /** The environment names in file order: `list(self.config.keys())`. */
  function EnvKeys(config: seq<Section>): (keys: seq<string>)
    ensures |keys| == |config| && forall i :: 0 <= i < |config| ==> keys[i] == config[i].name
  {
    if config == [] then [] else [config[0].name] + EnvKeys(config[1..])
  }

  /** `load_configuration(filepath)`: `None` when the file does not exist,
      otherwise the sections the file parser reads (passed in as `sections`).
      `pathExists` is `os.path.exists`, the same function `Connect.CaCerts` takes. */
  function LoadConfiguration(filepath: string, pathExists: string -> bool, sections: seq<Section>): Option<seq<Section>> {
    if !pathExists(filepath) then None else Some(sections)
  }

  /** `main`: `if not config: config = {}`, so a missing file and a file
      without sections both give no environments. */
  function StartupConfig(loaded: Option<seq<Section>>): seq<Section> {
    if loaded.None? then [] else loaded.value
  }

  /** A missing configuration file leaves only the custom connection and exit
      on the menu: `1` is a custom connection, `2` is exit, and no answer
      picks an environment. */
  lemma MissingFileOnlyCustom(filepath: string, pathExists: string -> bool, sections: seq<Section>, answer: string)
    requires !pathExists(filepath)
    ensures LoadConfiguration(filepath, pathExists, sections) == None
    ensures EnvKeys(StartupConfig(LoadConfiguration(filepath, pathExists, sections))) == []
    ensures Classify([], IntToString(1)) == Some(CustomConnection)
    ensures Classify([], IntToString(2)) == Some(Exit)
    ensures var picked := Classify(EnvKeys(StartupConfig(LoadConfiguration(filepath, pathExists, sections))), answer);
            picked.Some? ==> !picked.value.Environment?
  {
    ClassifyNumber([], 1);
    ClassifyNumber([], 2);
  }

  /** The options of a section as the connection step sees them: every value a string. */
  function SectionOptions(fields: map<string, string>): map<string, Value> {
    map k | k in fields :: Str(fields[k])
  }

  /** A configured `tls` switches TLS on exactly when its lower-cased text is
      `true`, `1`, `y` or `yes`; without a `tls` option the connection is
      plain text and gets no certificate options, whatever else is set. */
  lemma ConfiguredTls(fields: map<string, string>, pathExists: Value -> bool, defaultBundle: string)
    ensures TlsRequested(SectionOptions(fields))
            <==> "tls" in fields && Lower(fields["tls"]) in TruthyWords
    ensures "tls" !in fields ==>
              var r := Translation(SectionOptions(fields), pathExists, defaultBundle);
              "ssl" in r && r["ssl"] == Bool(false)
              && "ssl_cert_reqs" !in LibraryOptions(SectionOptions(fields), pathExists, defaultBundle)
              && "ssl_ca_certs" !in LibraryOptions(SectionOptions(fields), pathExists, defaultBundle)
  {
    var m := SectionOptions(fields);
    DefaultFlagWords();
    if "tls" in fields {
      TruthyByKind(m["tls"]);
    } else {
      SslFollowsTls(m, pathExists, defaultBundle);
      PlaintextAddsNoCertificateOptions(m, pathExists, defaultBundle);
    }
  }

  /** Every configured option that is neither user-facing nor set by the
      translation reaches the client library as the string it was in the file. */
  lemma ConfiguredOptionsPassThrough(fields: map<string, string>, pathExists: Value -> bool, defaultBundle: string, k: string)
    requires k in fields && k !in UserFacingKeys && k !in LibraryKeys
    ensures var r := Translation(SectionOptions(fields), pathExists, defaultBundle);
            k in r && r[k] == Str(fields[k])
  {
    KeysTranslated(SectionOptions(fields), pathExists, defaultBundle);
  }
}
