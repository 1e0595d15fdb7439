/**
 * `RedisManager._prompt_for_custom_details`: the questions asked for an
 * ad-hoc connection, the defaults applied to blank answers, and the details
 * dictionary built from the answers.
 */
module CustomPrompt {
  import opened Wrappers
  import opened Builtins
  import opened Flags
  import opened Connect
  import opened Terminal

  /** What the TLS questions settle: no TLS, TLS without certificate
      verification, or verified TLS with an optional custom CA bundle. */
  datatype Tls = Plain | Unverified | Verified(caPath: Option<string>)

  /** The typed content of the details dictionary the prompt returns. */
  datatype CustomDetails = CustomDetails(
    host: string,
    port: int,
    db: int,
    password: Option<string>,
    tls: Tls,
    legacy: bool)

  /** The outcome of the prompt (`None` when it is cancelled) and the number
      of answers it read. */
  datatype Parsed = Parsed(details: Option<CustomDetails>, used: nat)

  const YesWords: set<string> := {"y", "yes"}
  const NoWords: set<string> := {"n", "no"}

  /** `input(...).lower().strip() or default` */
  function Choice(answer: string, default: string): string {
    var c := Strip(Lower(answer));
    if c == "" then default else c
  }

  /** `int(port_str) if port_str else 6380`, with `port_str` stripped. */
  function PortAnswer(answer: string): Option<int> {
    var s := Strip(answer);
    if s == "" then Some(6380) else ParseInt(s)
  }

  /** `int(input(...) or '0')`: the answer is not stripped before `int()`. */
  function DbAnswer(answer: string): Option<int> {
    ParseInt(if answer == "" then "0" else answer)
  }

  /** `input(...) or None` */
  function PasswordAnswer(answer: string): Option<string> {
    if answer == "" then None else Some(answer)
  }

  /** The custom CA answer, stripped; recorded only when non-empty. */
  function CaAnswer(answer: string): Option<string> {
    var s := Strip(answer);
    if s == "" then None else Some(s)
  }

  /** The answers, in order: host, port, db, password, TLS?, then (with TLS)
      verify?, then (with verification) the CA path, and last legacy mode. A
      blank host, an unparsable number or the end of the input cancels. */
  function ParseCustom(answers: seq<string>): (p: Parsed)
    ensures p.used <= |answers|
  {
    if |answers| < 1 then Parsed(None, |answers|)
    else if Strip(answers[0]) == "" then Parsed(None, 1)
    else if |answers| < 2 then Parsed(None, |answers|)
    else if PortAnswer(answers[1]).None? then Parsed(None, 2)
    else if |answers| < 3 then Parsed(None, |answers|)
    else if DbAnswer(answers[2]).None? then Parsed(None, 3)
    else if |answers| < 4 then Parsed(None, |answers|)
    else ParseTls(answers, Strip(answers[0]), PortAnswer(answers[1]).value, DbAnswer(answers[2]).value,
                  PasswordAnswer(answers[3]))
  }

  /** The TLS questions, from answer number 4 on, and then legacy mode. */
  function ParseTls(answers: seq<string>, host: string, port: int, db: int, password: Option<string>): (p: Parsed)
    requires |answers| >= 4
    ensures p.used <= |answers|
  {
    if |answers| < 5 then Parsed(None, |answers|)
    else if Choice(answers[4], "y") !in YesWords then LegacyAt(answers, 5, host, port, db, password, Plain)
    else if |answers| < 6 then Parsed(None, |answers|)
    else if Choice(answers[5], "y") in NoWords then LegacyAt(answers, 6, host, port, db, password, Unverified)
    else if |answers| < 7 then Parsed(None, |answers|)
    else LegacyAt(answers, 7, host, port, db, password, Verified(CaAnswer(answers[6])))
  }

  /** The last question, legacy mode, asked as answer number `i`. */
  function LegacyAt(answers: seq<string>, i: nat, host: string, port: int, db: int,
                    password: Option<string>, tls: Tls): (p: Parsed)
    requires i <= |answers|
    ensures p.used <= |answers|
  {
    if i == |answers| then Parsed(None, i)
    else Parsed(Some(CustomDetails(host, port, db, password, tls, Choice(answers[i], "n") in YesWords)), i + 1)
  }

  /** The details dictionary as the prompt builds it, key after key. */
  function ToMap(d: CustomDetails): map<string, Value> {
    var connection := map["host" := Str(d.host), "port" := Int(d.port), "db" := Int(d.db),
                          "password" := (if d.password.Some? then Str(d.password.value) else NoneValue)];
    WithTls(connection, d.tls)["legacymode" := Bool(d.legacy)]
  }

  /** The entries the TLS answers add to the dictionary. */
  function WithTls(m: map<string, Value>, tls: Tls): map<string, Value> {
    match tls
    case Plain => m["tls" := Bool(false)]
    case Unverified => m["tls" := Bool(true)]["tls_verify" := Bool(false)]
    case Verified(ca) =>
      var verified := m["tls" := Bool(true)]["tls_verify" := Bool(true)];
      if ca.Some? then verified["tls_ca_certs_path" := Str(ca.value)] else verified
  }

  /** The entries `WithTls` adds, spelled out per case. */
  lemma TlsEntries(m: map<string, Value>, tls: Tls)
    ensures tls == Plain ==> WithTls(m, tls) == m["tls" := Bool(false)]
    ensures tls == Unverified ==> WithTls(m, tls) == m["tls" := Bool(true)]["tls_verify" := Bool(false)]
    ensures tls.Verified? && tls.caPath.None? ==>
              WithTls(m, tls) == m["tls" := Bool(true)]["tls_verify" := Bool(true)]
    ensures tls.Verified? && tls.caPath.Some? ==>
              WithTls(m, tls) == m["tls" := Bool(true)]["tls_verify" := Bool(true)]["tls_ca_certs_path" := Str(tls.caPath.value)]
  {
  }

  lemma DetailsEntries(d: CustomDetails, connection: map<string, Value>)
    requires connection == map["host" := Str(d.host), "port" := Int(d.port), "db" := Int(d.db),
                               "password" := (if d.password.Some? then Str(d.password.value) else NoneValue)]
    ensures ToMap(d) == WithTls(connection, d.tls)["legacymode" := Bool(d.legacy)]
  {
  }

  function ResultOf(p: Parsed): Option<map<string, Value>> {
    if p.details.Some? then Some(ToMap(p.details.value)) else None
  }

  /** The prompt: read the answers one by one and fill the details dictionary.
      `ValueError` from `int()` and `EOFError` from `input()` both end it with `None`. */
  method PromptForCustomDetails(console: Console) returns (result: Option<map<string, Value>>)
    modifies console
    ensures var p := ParseCustom(old(console.pending));
            result == ResultOf(p) && console.pending == old(console.pending)[p.used..]
  {
    ghost var answers := console.pending;
    var details: map<string, Value> := map[];

    var line := console.Input();
    if line.None? { return None; }
    details := details["host" := Str(Strip(line.value))];
    if Strip(line.value) == "" { return None; }

    line := console.Input();
    if line.None? { return None; }
    var portStr := Strip(line.value);
    var port := if portStr != "" then ParseInt(portStr) else Some(6380);
    if port.None? { return None; }
    details := details["port" := Int(port.value)];

    line := console.Input();
    if line.None? { return None; }
    var dbStr := if line.value != "" then line.value else "0";
    var db := ParseInt(dbStr);
    if db.None? { return None; }
    details := details["db" := Int(db.value)];

    line := console.Input();
    if line.None? { return None; }
    details := details["password" := if line.value != "" then Str(line.value) else NoneValue];

    assert console.pending == answers[4..];
    result := AskTlsAndLegacy(console, details, answers, Strip(answers[0]), port.value, db.value,
                              PasswordAnswer(answers[3]));
  }

  /** The TLS and legacy-mode questions of the prompt (answers 4 onwards),
      adding their entries to the `details` built from the first four answers. */
  method AskTlsAndLegacy(console: Console, connection: map<string, Value>, ghost answers: seq<string>,
                         ghost host: string, ghost port: int, ghost db: int, ghost password: Option<string>)
    returns (result: Option<map<string, Value>>)
    requires |answers| >= 4 && console.pending == answers[4..]
    requires connection == map["host" := Str(host), "port" := Int(port), "db" := Int(db),
                            "password" := (if password.Some? then Str(password.value) else NoneValue)]
    modifies console
    ensures var p := ParseTls(answers, host, port, db, password);
            result == ResultOf(p) && console.pending == answers[p.used..]
  {
    var details := connection;
    var line := console.Input();
    if line.None? { return None; }
    assert line.value == answers[4];
    var tlsChoice := Choice(line.value, "y");
    ghost var tls: Tls := Plain;
    ghost var used: nat := 5;
    if tlsChoice in YesWords {
      details := details["tls" := Bool(true)];
      line := console.Input();
      if line.None? { return None; }
      assert line.value == answers[5];
      var verifyChoice := Choice(line.value, "y");
      if verifyChoice in NoWords {
        details := details["tls_verify" := Bool(false)];
        tls, used := Unverified, 6;
        assert details == WithTls(connection, tls) by { TlsEntries(connection, tls); }
      } else {
        details := details["tls_verify" := Bool(true)];
        line := console.Input();
        if line.None? { return None; }
        assert line.value == answers[6];
        var customCa := Strip(line.value);
        if customCa != "" {
          details := details["tls_ca_certs_path" := Str(customCa)];
        }
        tls, used := Verified(CaAnswer(line.value)), 7;
        assert details == WithTls(connection, tls) by { TlsEntries(connection, tls); }
      }
    } else {
      details := details["tls" := Bool(false)];
      assert details == WithTls(connection, tls) by { TlsEntries(connection, tls); }
    }
    assert console.pending == answers[used..];
    assert ParseTls(answers, host, port, db, password) == LegacyAt(answers, used, host, port, db, password, tls);

    line := console.Input();
    if line.None? { return None; }
    assert line.value == answers[used];
    var legacyChoice := Choice(line.value, "n");
    details := details["legacymode" := Bool(legacyChoice in YesWords)];
    ghost var d := CustomDetails(host, port, db, password, tls, legacyChoice in YesWords);
    assert details == ToMap(d) by { DetailsEntries(d, connection); }
    return Some(details);
  }

  /** A yes/no answer with a default reads, once lower-cased and stripped,
      as the default when blank. */
  lemma ChoiceWords(answer: string)
    ensures Choice(answer, "y") in YesWords <==> Strip(Lower(answer)) in {"", "y", "yes"}
    ensures Choice(answer, "y") in NoWords <==> Strip(Lower(answer)) in {"n", "no"}
    ensures Choice(answer, "n") in YesWords <==> Strip(Lower(answer)) in {"y", "yes"}
  {
  }

  /** A blank host cancels the prompt before any other question is asked. */
  lemma BlankHostCancels(answers: seq<string>)
    requires |answers| > 0 && forall i :: 0 <= i < |answers[0]| ==> IsSpace(answers[0][i])
    ensures ParseCustom(answers) == Parsed(None, 1)
  {
    StripEmpty(answers[0]);
  }

  /** A port that `int()` refuses cancels the prompt right after the port
      question; a blank one does not, it becomes 6380. */
  lemma UnparsablePortCancels(answers: seq<string>)
    requires |answers| >= 2 && Strip(answers[0]) != ""
    requires Strip(answers[1]) != "" && ParseInt(Strip(answers[1])).None?
    ensures ParseCustom(answers) == Parsed(None, 2)
  {
  }

  /** A db answer that `int()` refuses cancels the prompt right after the db
      question. That includes an answer made only of spaces: unlike the port,
      the db answer is not stripped before it is tested for blankness. */
  lemma UnparsableDbCancels(answers: seq<string>)
    requires |answers| >= 3 && Strip(answers[0]) != "" && PortAnswer(answers[1]).Some?
    requires answers[2] != "" && (ParseInt(answers[2]).None? || forall i :: 0 <= i < |answers[2]| ==> IsSpace(answers[2][i]))
    ensures ParseCustom(answers) == Parsed(None, 3)
  {
    if forall i :: 0 <= i < |answers[2]| ==> IsSpace(answers[2][i]) {
      ParseIntBlank(answers[2]);
    }
  }

  /** The connection fields of an accepted set of answers: the stripped host,
      the port (6380 when blank), the db (0 when empty) and the password
      (`None` when empty). */
  lemma AcceptedConnectionAnswers(answers: seq<string>, d: CustomDetails)
    requires ParseCustom(answers).details == Some(d)
    ensures |answers| >= 6
    ensures d.host == Strip(answers[0]) && d.host != ""
    ensures Strip(answers[1]) == "" ==> d.port == 6380
    ensures Strip(answers[1]) != "" ==> ParseInt(Strip(answers[1])) == Some(d.port)
    ensures answers[2] == "" ==> d.db == 0
    ensures answers[2] != "" ==> ParseInt(answers[2]) == Some(d.db)
    ensures d.password == if answers[3] == "" then None else Some(answers[3])
  {
    assert |answers| >= 4 && Strip(answers[0]) != "" && PortAnswer(answers[1]).Some? && DbAnswer(answers[2]).Some?;
    var port, db := PortAnswer(answers[1]).value, DbAnswer(answers[2]).value;
    TlsAnswersKeepConnection(answers, Strip(answers[0]), port, db, PasswordAnswer(answers[3]));
    ParseIntZero();
  }

  lemma TlsAnswersKeepConnection(answers: seq<string>, host: string, port: int, db: int, password: Option<string>)
    requires |answers| >= 4
    ensures var p := ParseTls(answers, host, port, db, password);
            p.details.Some? ==> p.used >= 6 && p.details.value.host == host && p.details.value.port == port
                                && p.details.value.db == db && p.details.value.password == password
  {
  }

  /** The TLS and legacy fields of an accepted set of answers: TLS unless
      refused (blank means yes), verification unless refused with `n`/`no`,
      the CA path only when verifying and non-blank, and legacy mode only
      for `y`/`yes` (blank means no). */
  lemma AcceptedTlsAnswers(answers: seq<string>, d: CustomDetails)
    requires ParseCustom(answers).details == Some(d)
    ensures |answers| >= 6
    ensures d.tls != Plain <==> Strip(Lower(answers[4])) in {"", "y", "yes"}
    ensures d.tls == Unverified <==> d.tls != Plain && Strip(Lower(answers[5])) in {"n", "no"}
    ensures d.tls.Verified? ==> |answers| >= 8 && d.tls.caPath == CaAnswer(answers[6])
    ensures d.legacy <==> Strip(Lower(answers[ParseCustom(answers).used - 1])) in {"y", "yes"}
  {
    assert |answers| >= 4 && Strip(answers[0]) != "" && PortAnswer(answers[1]).Some? && DbAnswer(answers[2]).Some?;
    var host, port, db, password := Strip(answers[0]), PortAnswer(answers[1]).value, DbAnswer(answers[2]).value,
                                    PasswordAnswer(answers[3]);
    assert ParseCustom(answers) == ParseTls(answers, host, port, db, password);
    TlsAnswers(answers, host, port, db, password, d);
  }

  /** `AcceptedTlsAnswers`, for the TLS questions on their own. */
  lemma TlsAnswers(answers: seq<string>, host: string, port: int, db: int, password: Option<string>, d: CustomDetails)
    requires |answers| >= 4 && ParseTls(answers, host, port, db, password).details == Some(d)
    ensures |answers| >= 6
    ensures d.tls != Plain <==> Strip(Lower(answers[4])) in {"", "y", "yes"}
    ensures d.tls == Unverified <==> d.tls != Plain && Strip(Lower(answers[5])) in {"n", "no"}
    ensures d.tls.Verified? ==> |answers| >= 8 && d.tls.caPath == CaAnswer(answers[6])
    ensures d.legacy <==> Strip(Lower(answers[ParseTls(answers, host, port, db, password).used - 1])) in {"y", "yes"}
  {
    ChoiceWords(answers[4]);
    var u := ParseTls(answers, host, port, db, password).used;
    ChoiceWords(answers[u - 1]);
    if d.tls != Plain {
      ChoiceWords(answers[5]);
    }
  }

  /** The converse of the two lemmas above: a non-blank host, a port and a db
      that `int()` accepts, and enough answers for the longest run are accepted. */
  lemma ValidAnswersAccepted(answers: seq<string>)
    requires |answers| >= 8 && Strip(answers[0]) != ""
    requires PortAnswer(answers[1]).Some? && DbAnswer(answers[2]).Some?
    ensures ParseCustom(answers).details.Some?
  {
  }

  /** Empty answers after the host take every default: port 6380, db 0, no
      password, verified TLS with the default CA bundle, and no legacy mode. */
  lemma EmptyAnswersTakeDefaults(answers: seq<string>)
    requires |answers| == 8 && Strip(answers[0]) != ""
    requires forall i :: 1 <= i < 8 ==> answers[i] == ""
    ensures ParseCustom(answers)
            == Parsed(Some(CustomDetails(Strip(answers[0]), 6380, 0, None, Verified(None), false)), 8)
  {
    ParseIntZero();
    assert Lower("") == "";
    assert Strip("") == "";
    assert answers[1] == "" && answers[2] == "" && answers[3] == "" && answers[4] == "";
    assert answers[5] == "" && answers[6] == "" && answers[7] == "";
  }

  /** Every accepted outcome is one the prompt can be driven to say again: the
      host and CA path are stripped and not blank, the password is not empty. */
  ghost predicate Canonical(d: CustomDetails) {
    && d.host != "" && Strip(d.host) == d.host
    && d.password != Some("")
    && (d.tls.Verified? && d.tls.caPath.Some? ==> d.tls.caPath.value != "" && Strip(d.tls.caPath.value) == d.tls.caPath.value)
  }

  lemma AcceptedIsCanonical(answers: seq<string>, d: CustomDetails)
    requires ParseCustom(answers).details == Some(d)
    ensures Canonical(d)
  {
    AcceptedConnectionAnswers(answers, d);
    AcceptedTlsAnswers(answers, d);
    StripIdempotent(answers[0]);
    if d.tls.Verified? {
      StripIdempotent(answers[6]);
    }
  }

  /** The answers a user types to obtain the given details. */
  function AnswersFor(d: CustomDetails): (answers: seq<string>)
    ensures |answers| >= 6
  {
    [d.host, IntToString(d.port), IntToString(d.db), if d.password.Some? then d.password.value else ""]
    + (match d.tls
       case Plain => ["n"]
       case Unverified => ["y", "n"]
       case Verified(ca) => ["y", "y", if ca.Some? then ca.value else ""])
    + [if d.legacy then "y" else "n"]
  }

  lemma YesNoWords()
    ensures Choice("y", "y") == "y" && Choice("n", "y") == "n"
    ensures Choice("y", "n") == "y" && Choice("n", "n") == "n"
  {
    assert Lower("y") == "y";
    assert Lower("n") == "n";
    StripUnchanged("y");
    StripUnchanged("n");
  }

  /** The first four answers of `AnswersFor(d)` give back `d`'s connection fields. */
  lemma ConnectionAnswersRoundTrip(d: CustomDetails)
    requires Canonical(d)
    ensures var a := AnswersFor(d);
            && Strip(a[0]) == d.host && PortAnswer(a[1]) == Some(d.port)
            && DbAnswer(a[2]) == Some(d.db) && PasswordAnswer(a[3]) == d.password
  {
    var a := AnswersFor(d);
    assert a[0] == d.host && a[1] == IntToString(d.port) && a[2] == IntToString(d.db);
    NumeralStripped(d.port);
    IntRoundTrip(d.port);
    IntRoundTrip(d.db);
  }

  /** The remaining answers of `AnswersFor(d)` give back `d`'s TLS and legacy fields. */
  lemma TlsAnswersRoundTrip(d: CustomDetails)
    requires Canonical(d)
    ensures ParseTls(AnswersFor(d), d.host, d.port, d.db, d.password) == Parsed(Some(d), |AnswersFor(d)|)
  {
    var a := AnswersFor(d);
    YesNoWords();
    var legacy := if d.legacy then "y" else "n";
    match d.tls
    case Plain =>
      assert a[4] == "n" && a[5] == legacy && |a| == 6;
    case Unverified =>
      assert a[4] == "y" && a[5] == "n" && a[6] == legacy && |a| == 7;
    case Verified(ca) =>
      assert a[4] == "y" && a[5] == "y" && a[7] == legacy && |a| == 8;
      if ca.None? {
        assert a[6] == "";
        assert Strip("") == "";
      } else {
        assert a[6] == ca.value;
      }
      assert CaAnswer(a[6]) == ca;
  }

  /** Typing `AnswersFor(d)` gives back `d`, using every answer, for every
      canonical `d`; with `AcceptedIsCanonical` the prompt and `AnswersFor`
      are inverse on everything the prompt can produce. */
  lemma AnswersRoundTrip(d: CustomDetails)
    requires Canonical(d)
    ensures ParseCustom(AnswersFor(d)) == Parsed(Some(d), |AnswersFor(d)|)
  {
    ConnectionAnswersRoundTrip(d);
    TlsAnswersRoundTrip(d);
  }

  /** The outcome depends on the answers used and on nothing after them. */
  lemma SameAnswersSameOutcome(answers: seq<string>, other: seq<string>)
    requires ParseCustom(answers).details.Some?
    requires |other| >= ParseCustom(answers).used
    requires forall i :: 0 <= i < ParseCustom(answers).used ==> other[i] == answers[i]
    ensures ParseCustom(other) == ParseCustom(answers)
  {
    var d := ParseCustom(answers).details.value;
    AcceptedTlsAnswers(answers, d);
    var host, port, db, password := d.host, d.port, d.db, d.password;
    assert other[0] == answers[0] && other[1] == answers[1] && other[2] == answers[2];
    assert other[3] == answers[3] && other[4] == answers[4] && other[5] == answers[5];
    assert ParseCustom(other) == ParseTls(other, host, port, db, password);
    assert ParseCustom(answers) == ParseTls(answers, host, port, db, password);
    var u := ParseCustom(answers).used;
    assert other[u - 1] == answers[u - 1];
    if d.tls.Verified? {
      assert other[6] == answers[6];
    }
  }

  /** Once the prompt has what it needs, later input is not read: answers
      beyond the ones used change nothing. */
  lemma PromptReadsOnlyWhatItNeeds(answers: seq<string>, more: seq<string>)
    requires ParseCustom(answers).details.Some?
    ensures ParseCustom(answers + more) == ParseCustom(answers)
    ensures ParseCustom(answers[..ParseCustom(answers).used]) == ParseCustom(answers)
  {
    SameAnswersSameOutcome(answers, answers + more);
    SameAnswersSameOutcome(answers, answers[..ParseCustom(answers).used]);
  }

  /** Input that ends before the last question cancels the prompt. */
  lemma EndOfInputCancels(answers: seq<string>, k: nat)
    requires ParseCustom(answers).details.Some? && k < ParseCustom(answers).used
    ensures ParseCustom(answers[..k]).details == None
  {
    var u := ParseCustom(answers).used;
    AcceptedTlsAnswers(answers, ParseCustom(answers).details.value);
    var c := answers[..k];
    assert forall i :: 0 <= i < k ==> c[i] == answers[i];
  }

  /** How the connection step reads the flags of a prompted dictionary. */
  lemma PromptedFlags(d: CustomDetails, pathExists: Value -> bool, defaultBundle: string)
    ensures TlsRequested(ToMap(d)) == (d.tls != Plain)
    ensures LegacyRequested(ToMap(d)) == d.legacy
    ensures d.tls != Plain ==> VerifyRequested(ToMap(d)) == d.tls.Verified?
    ensures d.tls.Verified? ==>
              CaCerts(ToMap(d), pathExists, defaultBundle)
              == match d.tls.caPath
                 case Some(p) => if p != "" && pathExists(Str(p)) then Str(p) else Str(defaultBundle)
                 case None => Str(defaultBundle)
  {
    var m := ToMap(d);
    assert m["tls"] == Bool(d.tls != Plain);
    assert m["legacymode"] == Bool(d.legacy);
    TruthyByKind(m["tls"]);
    TruthyByKind(m["legacymode"]);
    if d.tls != Plain {
      assert m["tls_verify"] == Bool(d.tls.Verified?);
      TruthyByKind(m["tls_verify"]);
    }
  }

  /** The entries a prompted dictionary has once translated. */
  lemma PromptedTranslation(d: CustomDetails, pathExists: Value -> bool, defaultBundle: string)
    ensures Translation(ToMap(d), pathExists, defaultBundle)
            == map["host" := Str(d.host), "port" := Int(d.port), "db" := Int(d.db),
                   "password" := (if d.password.Some? then Str(d.password.value) else NoneValue)]
               + AddedOptions(d.tls != Plain, d.legacy, d.tls.Verified?, CaCerts(ToMap(d), pathExists, defaultBundle))
  {
    var connection := map["host" := Str(d.host), "port" := Int(d.port), "db" := Int(d.db),
                          "password" := (if d.password.Some? then Str(d.password.value) else NoneValue)];
    DetailsEntries(d, connection);
    UserFacingEntries(connection, d.tls, d.legacy);
    PromptedLibraryOptions(d, pathExists, defaultBundle);
  }

  /** Removing the user-facing keys from the dictionary takes away exactly
      what the TLS and legacy answers put into it. */
  lemma UserFacingEntries(connection: map<string, Value>, tls: Tls, legacy: bool)
    requires connection.Keys == {"host", "port", "db", "password"}
    ensures WithTls(connection, tls)["legacymode" := Bool(legacy)] - UserFacingKeys == connection
  {
    TlsEntries(connection, tls);
  }

  /** The library options of a prompted dictionary, in terms of its answers. */
  lemma PromptedLibraryOptions(d: CustomDetails, pathExists: Value -> bool, defaultBundle: string)
    ensures LibraryOptions(ToMap(d), pathExists, defaultBundle)
            == AddedOptions(d.tls != Plain, d.legacy, d.tls.Verified?, CaCerts(ToMap(d), pathExists, defaultBundle))
  {
    PromptedFlags(d, pathExists, defaultBundle);
  }

  /** Connecting with prompted details passes host, port, db, password and
      `ssl`, then `protocol` for legacy mode, then `ssl_cert_reqs` for an
      unverified and `ssl_ca_certs` for a verified TLS connection; nothing else. */
  lemma PromptedConnectionKeys(d: CustomDetails, pathExists: Value -> bool, defaultBundle: string)
    ensures Translation(ToMap(d), pathExists, defaultBundle).Keys
            == {"host", "port", "db", "password", "ssl"}
               + (if d.legacy then {"protocol"} else {})
               + (match d.tls
                  case Plain => {}
                  case Unverified => {"ssl_cert_reqs"}
                  case Verified(_) => {"ssl_ca_certs"})
  {
    var ca := CaCerts(ToMap(d), pathExists, defaultBundle);
    var connection := map["host" := Str(d.host), "port" := Int(d.port), "db" := Int(d.db),
                          "password" := (if d.password.Some? then Str(d.password.value) else NoneValue)];
    PromptedTranslation(d, pathExists, defaultBundle);
    PromptedKeys(connection, d.tls, d.legacy, ca);
  }

  /** The keys of the connection fields with the library options of the TLS
      and legacy answers on top. */
  lemma PromptedKeys(connection: map<string, Value>, tls: Tls, legacy: bool, ca: Value)
    requires connection.Keys == {"host", "port", "db", "password"}
    ensures (connection + AddedOptions(tls != Plain, legacy, tls.Verified?, ca)).Keys
            == {"host", "port", "db", "password", "ssl"}
               + (if legacy then {"protocol"} else {})
               + (match tls
                  case Plain => {}
                  case Unverified => {"ssl_cert_reqs"}
                  case Verified(_) => {"ssl_ca_certs"})
  {
    AddedOptionsKeys(tls != Plain, legacy, tls.Verified?, ca);
  }

  /** Connecting with prompted details: host, port, db and password reach the
      client library unchanged. */
  lemma PromptedPassThrough(d: CustomDetails, pathExists: Value -> bool, defaultBundle: string)
    ensures var r := Translation(ToMap(d), pathExists, defaultBundle);
            && "host" in r && r["host"] == Str(d.host)
            && "port" in r && r["port"] == Int(d.port)
            && "db" in r && r["db"] == Int(d.db)
            && "password" in r && r["password"] == (if d.password.Some? then Str(d.password.value) else NoneValue)
  {
    ToMapFields(d);
    PassThroughOne(d, "host", Str(d.host), pathExists, defaultBundle);
    PassThroughOne(d, "port", Int(d.port), pathExists, defaultBundle);
    PassThroughOne(d, "db", Int(d.db), pathExists, defaultBundle);
    PassThroughOne(d, "password", if d.password.Some? then Str(d.password.value) else NoneValue,
                   pathExists, defaultBundle);
  }

  lemma PassThroughOne(d: CustomDetails, k: string, v: Value, pathExists: Value -> bool, defaultBundle: string)
    requires k in ToMap(d) && ToMap(d)[k] == v && k !in UserFacingKeys && k !in LibraryKeys
    ensures var r := Translation(ToMap(d), pathExists, defaultBundle);
            k in r && r[k] == v
  {
    KeysTranslated(ToMap(d), pathExists, defaultBundle);
  }

  /** Connecting with prompted details: `ssl` follows the TLS answer and
      `protocol = 2` is passed exactly for legacy mode. */
  lemma PromptedSslAndProtocol(d: CustomDetails, pathExists: Value -> bool, defaultBundle: string)
    ensures var r := Translation(ToMap(d), pathExists, defaultBundle);
            && "ssl" in r && r["ssl"] == Bool(d.tls != Plain)
            && ("protocol" in r <==> d.legacy)
            && (d.legacy ==> r["protocol"] == Int(2))
  {
    var m := ToMap(d);
    PromptedFlags(d, pathExists, defaultBundle);
    SslFollowsTls(m, pathExists, defaultBundle);
    ProtocolOnlyForLegacy(m, pathExists, defaultBundle);
    assert "protocol" !in m;
  }

  lemma ToMapFields(d: CustomDetails)
    ensures var m := ToMap(d);
            && "host" in m && m["host"] == Str(d.host)
            && "port" in m && m["port"] == Int(d.port)
            && "db" in m && m["db"] == Int(d.db)
            && "password" in m && m["password"] == (if d.password.Some? then Str(d.password.value) else NoneValue)
  {
  }

  /** The certificate options of a prompted TLS connection: an unverified one
      gets `ssl_cert_reqs = None`, a verified one the typed CA path when it
      exists and otherwise the default bundle. */
  lemma PromptedCertificates(d: CustomDetails, pathExists: Value -> bool, defaultBundle: string)
    requires d.tls != Plain
    ensures var r := Translation(ToMap(d), pathExists, defaultBundle);
            && (d.tls == Unverified ==> "ssl_cert_reqs" in r && r["ssl_cert_reqs"] == NoneValue)
            && (d.tls.Verified? && d.tls.caPath.None? ==> "ssl_ca_certs" in r && r["ssl_ca_certs"] == Str(defaultBundle))
            && (d.tls.Verified? && d.tls.caPath.Some? ==>
                  var p := d.tls.caPath.value;
                  "ssl_ca_certs" in r && r["ssl_ca_certs"] == if p != "" && pathExists(Str(p)) then Str(p) else Str(defaultBundle))
  {
    PromptedFlags(d, pathExists, defaultBundle);
    PromptedTranslation(d, pathExists, defaultBundle);
  }
}
