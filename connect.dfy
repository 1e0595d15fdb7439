/**
 * The translation, at the start of `RedisManager._connect`, of the
 * user-facing connection options (`tls`, `tls_verify`, `tls_ca_certs_path`,
 * `legacymode`) into the keyword arguments the Redis client library reads
 * (`ssl`, `protocol`, `ssl_cert_reqs`, `ssl_ca_certs`).
 */
module Connect {
  import opened Flags

  /** `d.get(k, default)` on a dictionary value. */
  function Lookup(m: map<string, Value>, k: string, default: Value): Value {
    if k in m then m[k] else default
  }

  /** A Python dictionary of connection options, updated in place. */
  class Options {
    var entries: map<string, Value>

    constructor (entries: map<string, Value>)
      ensures this.entries == entries
    {
      this.entries := entries;
    }

    /** `d.get(k, default)` */
    function Get(k: string, default: Value): Value
      reads this
    {
      Lookup(entries, k, default)
    }

    /** `d.copy()`: a new dictionary with the same entries. */
    method Copy() returns (c: Options)
      ensures fresh(c) && c.entries == entries
    {
      c := new Options(entries);
    }

    /** `d[k] = v` */
    method Set(k: string, v: Value)
      modifies this
      ensures entries == old(entries)[k := v]
    {
      entries := entries[k := v];
    }

    /** `d.pop(k, None)`, its result discarded. */
    method Pop(k: string)
      modifies this
      ensures entries == old(entries) - {k}
    {
      entries := entries - {k};
    }
  }

  /** The keys only the manager understands; none of them reaches the client library. */
  const UserFacingKeys: set<string> := {"tls", "tls_verify", "tls_ca_certs_path", "legacymode"}

  /** The keys the translation may add. */
  const LibraryKeys: set<string> := {"ssl", "protocol", "ssl_cert_reqs", "ssl_ca_certs"}

  /** TLS is asked for; an absent `tls` reads as `'false'`. */
  predicate TlsRequested(conn: map<string, Value>) {
    Truthy(Lookup(conn, "tls", Str("false")))
  }

  /** The older wire protocol (RESP2) is asked for; an absent `legacymode` reads as `'false'`. */
  predicate LegacyRequested(conn: map<string, Value>) {
    Truthy(Lookup(conn, "legacymode", Str("false")))
  }

  /** Certificate verification is asked for; an absent `tls_verify` reads as `'true'`. */
  predicate VerifyRequested(conn: map<string, Value>) {
    Truthy(Lookup(conn, "tls_verify", Str("true")))
  }

  /** The trust bundle: the custom CA path when it is set, non-empty and exists on disk,
      otherwise the default bundle. `pathExists` is `os.path.exists` (as in
      `Config.LoadConfiguration`), applied here to the option's value as stored. */
  function CaCerts(conn: map<string, Value>, pathExists: Value -> bool, defaultBundle: string): Value {
    var custom := Lookup(conn, "tls_ca_certs_path", NoneValue);
    if PyTruth(custom) && pathExists(custom) then custom else Str(defaultBundle)
  }

  /** The client-library options added for the given decisions: `ssl` always,
      `protocol` for legacy mode, and with TLS one certificate option. */
  function AddedOptions(tls: bool, legacy: bool, verify: bool, ca: Value): map<string, Value> {
    map["ssl" := Bool(tls)]
    + (if legacy then map["protocol" := Int(2)] else map[])
    + (if !tls then map[]
       else if !verify then map["ssl_cert_reqs" := NoneValue]
       else map["ssl_ca_certs" := ca])
  }

  /** The keys `AddedOptions` sets. */
  lemma AddedOptionsKeys(tls: bool, legacy: bool, verify: bool, ca: Value)
    ensures AddedOptions(tls, legacy, verify, ca).Keys
            == {"ssl"} + (if legacy then {"protocol"} else {})
               + (if !tls then {} else if !verify then {"ssl_cert_reqs"} else {"ssl_ca_certs"})
  {
  }

  /** The client-library options the translation adds. */
  function LibraryOptions(conn: map<string, Value>, pathExists: Value -> bool, defaultBundle: string): map<string, Value> {
    AddedOptions(TlsRequested(conn), LegacyRequested(conn), VerifyRequested(conn),
                 CaCerts(conn, pathExists, defaultBundle))
  }

  /** The options handed to the client library: the input without its user-facing
      keys, together with the library options derived from them. */
  function Translation(conn: map<string, Value>, pathExists: Value -> bool, defaultBundle: string): map<string, Value> {
    (conn - UserFacingKeys) + LibraryOptions(conn, pathExists, defaultBundle)
  }

  /** The translation block of `_connect`: copy the caller's dictionary, set the
      library options on the copy, then pop the user-facing keys from it. */
  method Translate(connDetails: Options, pathExists: Value -> bool, defaultBundle: string) returns (final: Options)
    ensures fresh(final)
    ensures final.entries == Translation(connDetails.entries, pathExists, defaultBundle)
    ensures connDetails.entries == old(connDetails.entries)
  {
    ghost var conn := connDetails.entries;
    final := connDetails.Copy();
    SetLibraryOptions(final, pathExists, defaultBundle);

    final.Pop("tls");
    final.Pop("tls_verify");
    final.Pop("tls_ca_certs_path");
    final.Pop("legacymode");
    PopUserFacing(conn, LibraryOptions(conn, pathExists, defaultBundle));
  }

  /** The assignments of the translation block, made on the copy. */
  method SetLibraryOptions(final: Options, pathExists: Value -> bool, defaultBundle: string)
    modifies final
    ensures final.entries == old(final.entries) + LibraryOptions(old(final.entries), pathExists, defaultBundle)
  {
    ghost var conn := final.entries;
    ghost var verify := VerifyRequested(conn);
    ghost var ca := CaCerts(conn, pathExists, defaultBundle);
    var isTls := Truthy(final.Get("tls", Str("false")));
    var isLegacy := Truthy(final.Get("legacymode", Str("false")));

    // `added` is what the assignments below have put on top of the copy so far.
    ghost var added: map<string, Value> := map["ssl" := Bool(isTls)];
    final.Set("ssl", Bool(isTls));
    AssignOnTop(conn, map[], "ssl", Bool(isTls));

    if isLegacy {
      AssignOnTop(conn, added, "protocol", Int(2));
      final.Set("protocol", Int(2));
      added := added + map["protocol" := Int(2)];
    }
    assert final.entries == conn + added;
    ghost var base := added;
    assert base == map["ssl" := Bool(isTls)] + (if isLegacy then map["protocol" := Int(2)] else map[]);

    if isTls {
      var verifyTls := Truthy(final.Get("tls_verify", Str("true")));
      assert verifyTls == verify;
      if !verifyTls {
        AssignOnTop(conn, added, "ssl_cert_reqs", NoneValue);
        final.Set("ssl_cert_reqs", NoneValue);
        added := added + map["ssl_cert_reqs" := NoneValue];
        assert added == base + map["ssl_cert_reqs" := NoneValue];
      } else {
        var customCaPath := final.Get("tls_ca_certs_path", NoneValue);
        var caCerts := if PyTruth(customCaPath) && pathExists(customCaPath) then customCaPath else Str(defaultBundle);
        assert caCerts == ca;
        AssignOnTop(conn, added, "ssl_ca_certs", caCerts);
        final.Set("ssl_ca_certs", caCerts);
        added := added + map["ssl_ca_certs" := caCerts];
        assert added == base + map["ssl_ca_certs" := ca];
      }
    }
    assert added == AddedOptions(isTls, isLegacy, verify, ca);
  }

  /** Assigning a key of a dictionary that is an input with some options on top
      of it puts one more option on top. */
  lemma AssignOnTop(conn: map<string, Value>, added: map<string, Value>, k: string, v: Value)
    ensures (conn + added)[k := v] == conn + (added + map[k := v])
  {
  }

  /** Popping the user-facing keys one by one from an input with library options
      on top of it leaves the rest of the input with the same options on top. */
  lemma PopUserFacing(conn: map<string, Value>, added: map<string, Value>)
    requires added.Keys <= LibraryKeys
    ensures (conn + added) - {"tls"} - {"tls_verify"} - {"tls_ca_certs_path"} - {"legacymode"}
            == (conn - UserFacingKeys) + added
  {
  }

  /** `ssl` is always set, to the truth of `tls`, with an absent `tls` meaning off. */
  lemma SslFollowsTls(conn: map<string, Value>, pathExists: Value -> bool, defaultBundle: string)
    ensures var r := Translation(conn, pathExists, defaultBundle);
            "ssl" in r && r["ssl"] == Bool(TlsRequested(conn))
    ensures "tls" !in conn ==> !TlsRequested(conn)
  {
    DefaultFlagWords();
  }

  /** `protocol = 2` is added exactly when `legacymode` is truthy; otherwise a
      `protocol` from the input passes through and none is invented. */
  lemma ProtocolOnlyForLegacy(conn: map<string, Value>, pathExists: Value -> bool, defaultBundle: string)
    ensures var r := Translation(conn, pathExists, defaultBundle);
            && (LegacyRequested(conn) ==> "protocol" in r && r["protocol"] == Int(2))
            && (!LegacyRequested(conn) ==> ("protocol" in r <==> "protocol" in conn))
            && (!LegacyRequested(conn) && "protocol" in conn ==> r["protocol"] == conn["protocol"])
    ensures "legacymode" !in conn ==> !LegacyRequested(conn)
  {
    DefaultFlagWords();
  }

  /** No user-facing key survives, every other input key is copied unchanged
      unless the translation sets it, and nothing beyond the library keys is added. */
  lemma KeysTranslated(conn: map<string, Value>, pathExists: Value -> bool, defaultBundle: string)
    ensures var r := Translation(conn, pathExists, defaultBundle);
            && (forall k :: k in UserFacingKeys ==> k !in r)
            && (forall k :: k in r ==> k in conn || k in LibraryKeys)
            && (forall k :: k in conn && k !in UserFacingKeys && k !in LibraryKeys ==> k in r && r[k] == conn[k])
  {
    var tls, legacy, verify := TlsRequested(conn), LegacyRequested(conn), VerifyRequested(conn);
    var added := AddedOptions(tls, legacy, verify, CaCerts(conn, pathExists, defaultBundle));
    AddedOptionsKeys(tls, legacy, verify, CaCerts(conn, pathExists, defaultBundle));
    KeysOnTop(conn, added);
  }

  /** The key facts of `KeysTranslated`, for any library options on top of the input. */
  lemma KeysOnTop(conn: map<string, Value>, added: map<string, Value>)
    requires added.Keys <= LibraryKeys
    ensures var r := (conn - UserFacingKeys) + added;
            && (forall k :: k in UserFacingKeys ==> k !in r)
            && (forall k :: k in r ==> k in conn || k in LibraryKeys)
            && (forall k :: k in conn && k !in UserFacingKeys && k !in LibraryKeys ==> k in r && r[k] == conn[k])
  {
  }

  /** Without TLS neither certificate option is added, whatever `tls_verify`
      and `tls_ca_certs_path` say. */
  lemma PlaintextAddsNoCertificateOptions(conn: map<string, Value>, pathExists: Value -> bool, defaultBundle: string)
    requires !TlsRequested(conn)
    ensures var added := LibraryOptions(conn, pathExists, defaultBundle);
            "ssl_cert_reqs" !in added && "ssl_ca_certs" !in added
    ensures conn.Keys !! {"ssl_cert_reqs", "ssl_ca_certs"} ==>
              var r := Translation(conn, pathExists, defaultBundle);
              "ssl_cert_reqs" !in r && "ssl_ca_certs" !in r
  {
  }

  /** TLS with `tls_verify` present and not truthy switches verification off
      (`ssl_cert_reqs = None`) and adds no CA bundle, even a custom one. */
  lemma UnverifiedTlsSkipsCaBundle(conn: map<string, Value>, pathExists: Value -> bool, defaultBundle: string)
    requires TlsRequested(conn) && "tls_verify" in conn && !Truthy(conn["tls_verify"])
    ensures var r := Translation(conn, pathExists, defaultBundle);
            "ssl_cert_reqs" in r && r["ssl_cert_reqs"] == NoneValue
    ensures "ssl_ca_certs" !in LibraryOptions(conn, pathExists, defaultBundle)
  {
  }

  /** With TLS, an absent `tls_verify` means verify: a CA bundle is set. */
  lemma AbsentVerifyMeansVerify(conn: map<string, Value>, pathExists: Value -> bool, defaultBundle: string)
    requires TlsRequested(conn) && "tls_verify" !in conn
    ensures var r := Translation(conn, pathExists, defaultBundle);
            "ssl_ca_certs" in r && r["ssl_ca_certs"] == CaCerts(conn, pathExists, defaultBundle)
    ensures "ssl_cert_reqs" !in LibraryOptions(conn, pathExists, defaultBundle)
  {
    DefaultFlagWords();
  }

  /** With verification on, `ssl_ca_certs` is the custom path when it is a
      non-empty path that exists on disk, and the default bundle otherwise (also for a
      custom path that does not exist). */
  lemma CaBundleChoice(conn: map<string, Value>, pathExists: Value -> bool, defaultBundle: string)
    requires TlsRequested(conn) && VerifyRequested(conn)
    ensures var r := Translation(conn, pathExists, defaultBundle);
            && "ssl_ca_certs" in r
            && (forall p :: Lookup(conn, "tls_ca_certs_path", NoneValue) == Str(p) ==>
                  r["ssl_ca_certs"] == if p != "" && pathExists(Str(p)) then Str(p) else Str(defaultBundle))
            && ("tls_ca_certs_path" !in conn ==> r["ssl_ca_certs"] == Str(defaultBundle))
  {
  }

  /** With TLS on, exactly one of `ssl_cert_reqs` and `ssl_ca_certs` is added. */
  lemma TlsAddsOneCertificateOption(conn: map<string, Value>, pathExists: Value -> bool, defaultBundle: string)
    requires TlsRequested(conn)
    ensures var added := LibraryOptions(conn, pathExists, defaultBundle);
            ("ssl_cert_reqs" in added) != ("ssl_ca_certs" in added)
  {
  }
}
