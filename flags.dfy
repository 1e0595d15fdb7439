/**
 * The dynamically typed values stored in a connection-details dictionary and
 * the one rule by which the manager reads a flag out of such a value.
 */
module Flags {
  import opened Builtins

  /** A Python value as it can appear in a details dictionary: read from the
      configuration file (always a string) or built by the prompt. */
  datatype Value = Str(s: string) | Bool(b: bool) | Int(i: int) | NoneValue

  /** `str(v)` */
  function PyStr(v: Value): string {
    match v
    case Str(s) => s
    case Bool(b) => if b then "True" else "False"
    case Int(i) => IntToString(i)
    case NoneValue => "None"
  }

  /** `bool(v)`: Python truthiness, as used by `if custom_ca_path`. */
  predicate PyTruth(v: Value) {
    match v
    case Str(s) => s != ""
    case Bool(b) => b
    case Int(i) => i != 0
    case NoneValue => false
  }

  /** The words that switch a flag on, once lower-cased. */
  const TruthyWords: set<string> := {"true", "1", "y", "yes"}

  /** `str(v).lower() in ('true', '1', 'y', 'yes')` */
  predicate Truthy(v: Value) {
    Lower(PyStr(v)) in TruthyWords
  }

  lemma LowerOfNumeral(i: int)
    ensures Lower(IntToString(i)) == IntToString(i)
  {
    var r := IntToString(i);
    assert forall k :: 0 <= k < |r| ==> LowerChar(r[k]) == r[k];
  }

  /** What the flag rule makes of each kind of value: a string by its lower-cased
      text, a boolean by itself, an integer only when it is 1, and `None` never. */
  lemma TruthyByKind(v: Value)
    ensures Truthy(v) <==> match v
                            case Str(s) => Lower(s) in TruthyWords
                            case Bool(b) => b
                            case Int(i) => i == 1
                            case NoneValue => false
  {
    match v
    case Str(s) =>
    case Bool(b) =>
      if b {
        assert Lower("True") == "true";
      } else {
        assert Lower("False") == "false";
      }
    case Int(i) =>
      var r := IntToString(i);
      LowerOfNumeral(i);
      IntToStringOne(i);
      assert r != "true" && r != "y" && r != "yes" by {
        assert IsDigit(r[0]) || r[0] == '-';
      }
    case NoneValue =>
      assert Lower("None") == "none";
  }

  /** A flag written in any letter case means the same. */
  lemma TruthyIgnoresCase(s: string)
    ensures Truthy(Str(Upper(s))) == Truthy(Str(s))
  {
    LowerOfUpper(s);
  }

  /** The defaults the connection step substitutes for an absent flag:
      `'false'` is off and `'true'` is on. */
  lemma DefaultFlagWords()
    ensures !Truthy(Str("false")) && Truthy(Str("true"))
  {
    assert Lower("false") == "false";
    assert Lower("true") == "true";
  }

  /** The connection step does not strip white space around a flag: a string
      that starts or ends with white space is never truthy. */
  lemma TruthyNeedsNoSpace(s: string)
    requires s != [] && (IsSpace(s[0]) || IsSpace(s[|s| - 1]))
    ensures !Truthy(Str(s))
  {
    var l := Lower(s);
    if IsSpace(s[0]) {
      assert IsSpace(l[0]);
    } else {
      assert IsSpace(l[|l| - 1]);
    }
    assert l != "true" && l != "1" && l != "y" && l != "yes";
  }
}
