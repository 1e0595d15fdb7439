# simple-redis-manager: a Dafny model of its connection and prompt logic

`src/redis_manager.py` is an interactive terminal tool. It lets an operator
pick one of several Redis environments listed in a configuration file, or
type ad-hoc connection details, and then list, read, set and delete keys or
flush the database. This project models the deterministic parts of that
file and proves what they promise:

- **Connection-option translation** (`Connect`). The block at the start of
  `RedisManager._connect` copies the user-facing option dictionary and
  rewrites it into the keyword arguments of the Redis client library. It
  sets `ssl`, adds `protocol = 2` for legacy mode, and with TLS adds either
  `ssl_cert_reqs = None` (no verification) or `ssl_ca_certs` (a custom CA
  bundle that exists, else the default bundle). It then pops `tls`,
  `tls_verify`, `tls_ca_certs_path` and `legacymode`. The dictionary is a
  class (`Options`) updated in place. `Translate` is proved equal to the
  specification function `Translation`, and the properties are lemmas about
  `Translation`.
- **Flag truthiness** (`Flags`). Every flag is read by one rule:
  `str(v).lower()` must be one of `true`, `1`, `y`, `yes`. Values are
  modelled as Python values (`Value`: string, bool, int or `None`), because
  the prompt stores booleans while the configuration file stores strings.
- **Custom-details prompt** (`CustomPrompt`). `_prompt_for_custom_details`
  reads its answers one by one from standard input (`Terminal.Console`) and
  fills a dictionary. It applies the defaults: port 6380, db 0, no
  password, TLS on, verification on, legacy mode off. A blank host, a
  number `int()` refuses or the end of the input cancels it with `None`.
  `ParseCustom` is its specification. `AnswersFor` is the inverse partner.
  Further lemmas connect the prompt's output to the translation.
- **Environment menu** (`EnvMenu`). `_select_environment` loops until an
  answer is a number on the menu: 1..n pick a configured environment,
  n + 1 a custom connection, n + 2 exit; anything else re-prompts.
- **Flush guard** (`Flush`). `_flush_all_keys` flushes only when the typed
  confirmation equals the current environment name exactly.
- **Configuration loading** (`Config`). `load_configuration` returns
  `None` for a missing file, and `main` then starts with no environments.
  Configured values are strings, so a configured `tls` is read by its text.

`Builtins` models the Python text built-ins the code relies on:
`str.strip()`, `str.lower()`, `str.upper()`, `str(int)` and `int(str)` in
base 10. It proves the round trip `int(str(i)) == i`. `Wrappers` holds
`Option`.

External effects are parameters: `os.path.exists` is `pathExists` and
`certifi.where()` is `defaultBundle`. The file parser's sections are passed
to `LoadConfiguration`. Standard input is a `Console` holding the lines
still to be typed; when it is empty, `input()` raises `EOFError`.

## Model

| member | source | states |
|---|---|---|
| `Flags.TruthyByKind` | src/redis_manager.py:113-114 | The flag rule reads a string by its lower-cased text, a bool as itself, an int as on only when it is 1, and `None` as off. |
| `Flags.TruthyIgnoresCase` | src/redis_manager.py:113 | A flag upper-cased reads the same as written, for every string, with the ASCII-only `upper()` of the model. |
| `Flags.DefaultFlagWords` | src/redis_manager.py:113-123 | The substituted defaults `'false'` (for `tls`, `legacymode`) is off and `'true'` (for `tls_verify`) is on. |
| `Flags.TruthyNeedsNoSpace` | src/redis_manager.py:113 | Any string that starts or ends with white space is not truthy: the flag is not stripped. |
| `Connect.Options.Copy` | src/redis_manager.py:109 | `copy()` gives a fresh dictionary with the same entries. |
| `Connect.Options.Set` | src/redis_manager.py:117 | `d[k] = v` updates exactly key `k`. |
| `Connect.Options.Pop` | src/redis_manager.py:137 | `d.pop(k, None)` removes `k` and nothing else, present or not. |
| `Connect.Translate` | src/redis_manager.py:109-140 | The translated dictionary is fresh and equals `Translation` of the input; the caller's dictionary is unchanged. |
| `Connect.SetLibraryOptions` | src/redis_manager.py:113-134 | The assignments add exactly `LibraryOptions` of the dictionary on top of it. |
| `Connect.SslFollowsTls` | src/redis_manager.py:113-117 | `ssl` is always set, to the truthiness of `tls`; an absent `tls` means off. |
| `Connect.ProtocolOnlyForLegacy` | src/redis_manager.py:114-120 | `protocol = 2` exactly when `legacymode` is truthy; otherwise no `protocol` is invented. An input `protocol` passes through. |
| `Connect.KeysTranslated` | src/redis_manager.py:137-140 | No user-facing key survives. Every other input key is copied unchanged unless the translation sets it. Nothing beyond the four library keys is added. |
| `Connect.PlaintextAddsNoCertificateOptions` | src/redis_manager.py:122 | Without TLS, neither `ssl_cert_reqs` nor `ssl_ca_certs` is added, whatever `tls_verify` or the CA path say. |
| `Connect.UnverifiedTlsSkipsCaBundle` | src/redis_manager.py:123-126 | TLS with `tls_verify` present and not truthy sets `ssl_cert_reqs = None` and adds no CA bundle, even with a custom path. |
| `Connect.AbsentVerifyMeansVerify` | src/redis_manager.py:123 | With TLS, an absent `tls_verify` means verify: a CA bundle is set and `ssl_cert_reqs` is not. |
| `Connect.CaBundleChoice` | src/redis_manager.py:128-134 | With verification, `ssl_ca_certs` is the custom path when it is non-empty and exists, and the default bundle otherwise or when no path is given. |
| `Connect.TlsAddsOneCertificateOption` | src/redis_manager.py:122-134 | With TLS, exactly one of `ssl_cert_reqs` and `ssl_ca_certs` is added. |
| `Terminal.Console.Input` | src/redis_manager.py:51 | `input()` returns the next line and consumes it, or signals `EOFError` when the input has ended. |
| `CustomPrompt.PromptForCustomDetails` | src/redis_manager.py:64-80 | The prompt's result is `ParseCustom` of the answers typed, as a dictionary, and it reads exactly the answers `ParseCustom` uses. |
| `CustomPrompt.AskTlsAndLegacy` | src/redis_manager.py:81-103 | The TLS, verification, CA-path and legacy questions add exactly the entries `ParseTls` describes, reading exactly the answers it uses. |
| `CustomPrompt.ChoiceWords` | src/redis_manager.py:81-98 | With its default, a yes/no answer means yes for TLS when blank, `y` or `yes`; no for verification only for `n`/`no`; yes for legacy only for `y`/`yes`. |
| `CustomPrompt.BlankHostCancels` | src/redis_manager.py:70-71 | A host answer of only white space returns `None` after reading one answer. |
| `CustomPrompt.UnparsablePortCancels` | src/redis_manager.py:73-74 | A port that is non-blank once stripped and that `int()` refuses after stripping returns `None` right after the port question. |
| `CustomPrompt.UnparsableDbCancels` | src/redis_manager.py:76-77 | A db answer `int()` refuses returns `None`, including one made only of spaces, because the db answer is not stripped. |
| `CustomPrompt.AcceptedConnectionAnswers` | src/redis_manager.py:70-79 | An accepted result has the stripped non-blank host, port 6380 when blank or else `int()` of the stripped answer, db 0 when empty or else `int()` of it, and no password exactly when the answer is empty. |
| `CustomPrompt.AcceptedTlsAnswers` | src/redis_manager.py:81-98 | TLS is on unless refused; verification is off only for `n`/`no`; the CA path is the stripped non-blank answer and only with verification; legacy mode follows its answer. |
| `CustomPrompt.ValidAnswersAccepted` | src/redis_manager.py:70-100 | Conversely, a non-blank host, a port and a db that `int()` accepts, and enough answers, give an accepted result. |
| `CustomPrompt.EmptyAnswersTakeDefaults` | src/redis_manager.py:73-98 | Empty answers after the host give port 6380, db 0, no password, verified TLS with no custom CA path, and no legacy mode. |
| `CustomPrompt.AcceptedIsCanonical` | src/redis_manager.py:70-93 | Every accepted result has a stripped non-blank host, a non-empty password if any and a stripped non-blank CA path if any. |
| `CustomPrompt.AnswersRoundTrip` | src/redis_manager.py:64-100 | Typing `AnswersFor(d)` gives back `d` using every answer, for every canonical `d`: the prompt and `AnswersFor` are inverse. |
| `CustomPrompt.SameAnswersSameOutcome` | src/redis_manager.py:64-100 | An accepted result depends only on the answers the prompt reads. |
| `CustomPrompt.PromptReadsOnlyWhatItNeeds` | src/redis_manager.py:64-100 | Answers after the last one read change nothing. |
| `CustomPrompt.EndOfInputCancels` | src/redis_manager.py:101-103 | Input that ends before the last question is answered cancels with `None`. |
| `CustomPrompt.PromptedFlags` | src/redis_manager.py:113-134 | The connection step reads the prompt's boolean `tls`, `tls_verify` and `legacymode` as the answers gave them. |
| `CustomPrompt.PromptedConnectionKeys` | src/redis_manager.py:81-140 | Prompted details are passed on as host, port, db, password and `ssl`, plus `protocol` for legacy mode, plus one certificate option with TLS; nothing else. |
| `CustomPrompt.PromptedPassThrough` | src/redis_manager.py:70-79 | Host, port, db and password from the prompt reach the client library unchanged. |
| `CustomPrompt.PromptedSslAndProtocol` | src/redis_manager.py:113-120 | For prompted details, `ssl` follows the TLS answer, and `protocol = 2` is passed exactly for legacy mode. |
| `CustomPrompt.PromptedCertificates` | src/redis_manager.py:122-134 | An unverified prompted connection gets `ssl_cert_reqs = None`. A verified one gets the typed CA path when it exists, else the default bundle. |
| `EnvMenu.SelectEnvironment` | src/redis_manager.py:49-62 | The menu loop returns `FirstSelection` of the answers and consumes exactly the answers it read. |
| `EnvMenu.FirstSelectionIsFirstValid` | src/redis_manager.py:49-62 | The selection is the reading of the first answer on the menu, and every earlier answer re-prompts. With no such answer, the input runs out. |
| `EnvMenu.ClassifyNumber` | src/redis_manager.py:52-60 | Number k selects the k-th environment for 1 ≤ k ≤ n, a custom connection for n + 1, exit for n + 2, and nothing otherwise. |
| `EnvMenu.NonNumberAsksAgain` | src/redis_manager.py:61-62 | An answer `int()` refuses is never a selection. |
| `EnvMenu.ChoiceNumberSelects` | src/redis_manager.py:53-58 | Every selection on the menu is made by typing its number. |
| `EnvMenu.SelectedByItsNumber` | src/redis_manager.py:53-58 | With distinct names, an answer that makes a selection is a way of writing that selection's number. |
| `EnvMenu.SectionNamedCustomUnreachable` | src/redis_manager.py:54-56 | As written, picking a section named "custom" leads `run` to the custom prompt, and no answer connects to it. |
| `EnvMenu.EverySectionReachable` | src/redis_manager.py:187-200 | Dispatching on the selection connects to every configured environment, whatever its name. |
| `EnvMenu.DistinctNumbersDistinctSteps` | src/redis_manager.py:53-58 | Dispatching on the selection, distinct menu numbers lead to distinct steps when names are distinct. |
| `EnvMenu.DispatchAgreesElsewhere` | src/redis_manager.py:189-200 | `run`'s string dispatch and the selection dispatch agree except on a section named "custom". |
| `Flush.Keyspace.FlushDb` | src/redis_manager.py:243 | `flushdb()` empties the database. |
| `Flush.FlushAllKeys` | src/redis_manager.py:235-243 | The flush happens exactly when the confirmation read equals the current environment name. Otherwise, including at end of input, the database is unchanged. |
| `Flush.ConfirmsExactly` | src/redis_manager.py:237 | A confirmation confirms exactly when it equals the current name; with no current environment, nothing does. |
| `Flush.PaddedNameRefused` | src/redis_manager.py:237 | The name with white space around it does not confirm (no trimming). |
| `Flush.ConfigEnvironmentToken` | src/redis_manager.py:200 | A configured environment is confirmed with its upper-case display name; its lower-case section name is refused (no case folding). |
| `Flush.CustomConnectionToken` | src/redis_manager.py:197 | A custom connection is confirmed with the whole `Custom (host:port)` name, not with the host. |
| `Config.EnvKeys` | src/redis_manager.py:38 | The menu lists the environments in file order, one entry per section. |
| `Config.MissingFileOnlyCustom` | src/redis_manager.py:281-291 | A missing file gives `None` and then no environments: 1 is a custom connection, 2 is exit, and no answer picks an environment. |
| `Config.ConfiguredTls` | src/redis_manager.py:284 | A configured `tls` switches TLS on exactly when its lower-cased text is a truthy word. Without `tls`, the connection is plain and gets no certificate options. |
| `Config.ConfiguredOptionsPassThrough` | src/redis_manager.py:284 | A configured option that is neither user-facing nor set by the translation reaches the client library as the string from the file. |
| `Builtins.IntRoundTrip` | src/redis_manager.py:74 | `int(str(i)) == i` for every integer. |
| `Builtins.ParseIntBlank` | src/redis_manager.py:77 | `int()` refuses an empty or all-white-space string. |
| `Builtins.ParseIntOfStripped` | src/redis_manager.py:73-77 | Wherever `int()` accepts a string, `int()` of the stripped string gives the same number. |
| `Builtins.IntKeepsSeparators` | src/redis_manager.py:73-77 | `int()` skips less white space than `strip()`: it refuses `'\x1c5'`, whose stripped form parses to 5. |
| `Builtins.ParseIntZero` | src/redis_manager.py:76-77 | The `'0'` substituted for an empty db answer parses to 0. |
| `Builtins.StripEmpty` | src/redis_manager.py:70-71 | A string strips to `''` exactly when every character of it is white space. |
| `Builtins.StripIdempotent` | src/redis_manager.py:70-73 | Stripping twice is stripping once. |

## Findings

| source | as written | input that shows it | evidently intended | confidence | as-written member | corrected member |
|---|---|---|---|---|---|---|
| src/redis_manager.py:56 | `_select_environment` returns the string `'custom'` for the custom-connection item, and `run` compares the result with `'custom'` (line 194). A configured section named `custom` returns the same string. | A configuration with one section `[custom]`; answer `1`. `run` opens the custom-connection prompt instead of connecting to that section. | Every listed environment can be connected to: the menu item and the section stay distinct. | medium, not executed | `EnvMenu.SectionNamedCustomUnreachable` | `EnvMenu.EverySectionReachable` |

The model's menu returns a `Selection` datatype (`Environment(name)`,
`CustomConnection`, `Exit`) and dispatches on it with `Dispatch`. The string
the source returns is kept as `Returned`, and `RunStepOf` is `run`'s string
dispatch.

## Left out

- Client construction, `ping`, and the bookkeeping of `redis_conn` and `current_env_name` (src/redis_manager.py:144-155): network I/O through redis-py. `Flush.FlushAllKeys` takes the current name as a parameter.
- `_get_all_keys`, `_delete_a_key`, `_get_key_data`, `_set_key_data`: thin wrappers over client calls plus printing. `keys('*')` is a single call: there is no cursor-based scan and no chunked deletion in this code.
- `_operations_loop`, `_show_operations_menu` and `menu_actions`: menu text and dispatch to the operations above; only the flush operation's guard is modelled.
- `run`: its loop is not modelled. Its dispatch on the selection (`EnvMenu.RunStepOf`) and its display names (`Flush.ConfigDisplayName`, `Flush.CustomDisplayName`) are.
- `Halo` spinners, `clear_screen`, `print` and the prompt texts: output only.
- `KeyboardInterrupt` in the prompt and the exception handling in `main`: signals and process exit.
- A failing `flushdb()`: the exception is only printed; the model's `FlushDb` always succeeds.
- `configparser` parsing (src/redis_manager.py:283-284): a foreign library; its sections are a parameter of `Config.LoadConfiguration`.
- `os.path.exists` and `certifi.where()`: the parameters `pathExists` and `defaultBundle`. `os.path.exists` appears twice, as `pathExists` of `Config.LoadConfiguration` (on the file name) and of `Connect.CaCerts` (on the option value); both stand for the same function.
- `int()` of digits outside ASCII: the model accepts only ASCII digits. The rest of base-10 `int()` is modelled: sign, `_` separators, and the surrounding white space it skips, which is `str.isspace()` without U+001C-U+001F (`Builtins.IsIntSpace`); `strip()` does remove those four.
- Builtins.ParseIntOfStripped: holds only where `int()` accepts the string; where it refuses, stripping first can make it accept (`Builtins.IntKeepsSeparators`).
- `lower()` and `upper()` map only ASCII letters; no non-ASCII character lower-cases to a letter of a flag word.
- Builtins.ParseInt: Python's limit on the length of integer strings (4300 digits by default, `sys.get_int_max_str_digits()`) is not modelled; a longer port or db answer is accepted by the model where Python raises `ValueError`.
- Builtins.IntRoundTrip: holds for every integer in the model; Python's `str()` refuses integers of more than 4300 digits, so there it holds only below that size.
- CustomPrompt.AnswersRoundTrip: likewise holds for every canonical `d`, including ports and dbs whose numerals exceed Python's digit limit.
- Dictionary order: Python dictionaries keep insertion order; the model's `map` does not.
- TLS default: the prompt defaults TLS to on, but a configured environment without `tls` is plain text (src/redis_manager.py:113 substitutes `'false'`). The model follows the code (`Config.ConfiguredTls`).
