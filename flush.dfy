/**
 * The confirmation guard of `RedisManager._flush_all_keys`: the database is
 * flushed only when the user types the name of the current environment
 * exactly as it is displayed.
 */
module Flush {
  import opened Wrappers
  import opened Builtins
  import opened Terminal

  /** The keys of the connected database and their values. */
  class Keyspace {
    var data: map<string, string>

    constructor (data: map<string, string>)
      ensures this.data == data
    {
      this.data := data;
    }

    /** `flushdb()`: delete every key of the database. */
    method FlushDb()
      modifies this
      ensures data == map[]
    {
      data := map[];
    }
  }

  /** The name `run` gives a configured environment: its section name in upper case. */
  function ConfigDisplayName(section: string): string {
    Upper(section)
  }

  /** The name `run` gives a custom connection: `Custom (host:port)`. */
  function CustomDisplayName(host: string, port: int): string {
    "Custom (" + host + ":" + IntToString(port) + ")"
  }

  /** `confirm == self.current_env_name`: with no current environment
      (`None`) no string confirms. */
  predicate Confirms(currentEnvName: Option<string>, confirm: string) {
    currentEnvName == Some(confirm)
  }

  /** Ask for the confirmation and flush only when it matches; otherwise
      cancel. The end of the input (`EOFError`) leaves the database alone. */
  method FlushAllKeys(db: Keyspace, currentEnvName: Option<string>, console: Console) returns (flushed: bool)
    modifies db, console
    ensures old(console.pending) == [] ==> !flushed && console.pending == []
    ensures old(console.pending) != [] ==>
              flushed == Confirms(currentEnvName, old(console.pending)[0])
              && console.pending == old(console.pending)[1..]
    ensures db.data == if flushed then map[] else old(db.data)
  {
    var confirm := console.Input();
    if confirm.None? {
      return false;
    }
    if Some(confirm.value) != currentEnvName {
      return false;
    }
    db.FlushDb();
    flushed := true;
  }

  /** Only the exact name confirms, and nothing at all when there is no
      current environment. */
  lemma ConfirmsExactly(currentEnvName: Option<string>, confirm: string)
    ensures Confirms(currentEnvName, confirm) <==> currentEnvName.Some? && confirm == currentEnvName.value
  {
  }

  /** White space around the name refuses the flush. */
  lemma PaddedNameRefused(name: string)
    ensures !Confirms(Some(name), name + " ") && !Confirms(Some(name), " " + name)
  {
    assert |name + " "| != |name|;
    assert |" " + name| != |name|;
  }

  /** A configured environment is confirmed with its upper-case display name;
      its section name as written in the configuration file is refused when
      it has a lower-case letter. */
  lemma ConfigEnvironmentToken(section: string, k: nat)
    requires k < |section| && 'a' <= section[k] <= 'z'
    ensures Confirms(Some(ConfigDisplayName(section)), Upper(section))
    ensures !Confirms(Some(ConfigDisplayName(section)), section)
  {
    UpperChangesLowerCase(section, k);
  }

  /** A custom connection is confirmed only with the whole display name, not
      with its host. */
  lemma CustomConnectionToken(host: string, port: int)
    ensures Confirms(Some(CustomDisplayName(host, port)), CustomDisplayName(host, port))
    ensures !Confirms(Some(CustomDisplayName(host, port)), host)
  {
    assert |CustomDisplayName(host, port)| > |host|;
  }
}
