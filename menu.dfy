/**
 * `RedisManager._select_environment`: the numbered menu of configured
 * environments, followed by "custom connection" and "exit", re-asked until
 * the user types a number that is on it.
 */
module EnvMenu {
  import opened Wrappers
  import opened Builtins
  import opened Terminal

  /** What a menu answer picks. */
  datatype Selection = Environment(name: string) | CustomConnection | Exit

  /** The menu's reading of one answer: `int()` of it, then 1..n for the
      environments in configuration order, n + 1 for a custom connection and
      n + 2 for exit; `None` (asked again) for anything else. */
  function Classify(envKeys: seq<string>, answer: string): Option<Selection> {
    match ParseInt(answer)
    case None => None
    case Some(k) =>
      if 1 <= k <= |envKeys| then Some(Environment(envKeys[k - 1]))
      else if k == |envKeys| + 1 then Some(CustomConnection)
      else if k == |envKeys| + 2 then Some(Exit)
      else None
  }

  /** The outcome of the menu: the selection (`None` when the input ends
      first, where `input()` raises `EOFError`) and the number of answers read. */
  datatype MenuOutcome = MenuOutcome(selection: Option<Selection>, used: nat)

  /** The first answer on the menu decides; the answers before it are asked again. */
  function FirstSelection(envKeys: seq<string>, answers: seq<string>): (o: MenuOutcome)
    ensures o.used <= |answers|
  {
    if answers == [] then MenuOutcome(None, 0)
    else match Classify(envKeys, answers[0])
      case Some(s) => MenuOutcome(Some(s), 1)
      case None =>
        var rest := FirstSelection(envKeys, answers[1..]);
        MenuOutcome(rest.selection, rest.used + 1)
  }

  /** The `while True` loop of the menu: read an answer, return what it picks,
      or ask again. The end of the input leaves the loop with `None`. */
  method SelectEnvironment(envKeys: seq<string>, console: Console) returns (selection: Option<Selection>)
    modifies console
    ensures var o := FirstSelection(envKeys, old(console.pending));
            selection == o.selection && console.pending == old(console.pending)[o.used..]
  {
    ghost var answers := console.pending;
    ghost var read := 0;
    while true
      invariant read <= |answers| && console.pending == answers[read..]
      invariant FirstSelection(envKeys, answers) == Shifted(FirstSelection(envKeys, answers[read..]), read)
      decreases |console.pending|
    {
      var line := console.Input();
      if line.None? {
        return None;
      }
      assert answers[read..][0] == line.value && answers[read..][1..] == answers[read + 1..];
      var choiceNum := ParseInt(line.value);
      if choiceNum.Some? {
        var k := choiceNum.value;
        if 1 <= k <= |envKeys| {
          return Some(Environment(envKeys[k - 1]));
        } else if k == |envKeys| + 1 {
          return Some(CustomConnection);
        } else if k == |envKeys| + 2 {
          return Some(Exit);
        }
      }
      read := read + 1;
    }
  }

  /** An outcome seen from `n` answers earlier. */
  function Shifted(o: MenuOutcome, n: nat): MenuOutcome {
    MenuOutcome(o.selection, o.used + n)
  }

  /** The menu returns the first answer that is on it, after asking again for
      every answer before it; when no answer is on it, the input runs out. */
  lemma {:induction false} FirstSelectionIsFirstValid(envKeys: seq<string>, answers: seq<string>)
    ensures var o := FirstSelection(envKeys, answers);
            && (o.selection.Some? ==> 1 <= o.used && Classify(envKeys, answers[o.used - 1]) == o.selection)
            && (o.selection.None? ==> o.used == |answers|)
            && (forall j :: 0 <= j < o.used - 1 ==> Classify(envKeys, answers[j]).None?)
            && (o.selection.None? ==> forall j :: 0 <= j < |answers| ==> Classify(envKeys, answers[j]).None?)
  {
    if answers != [] && Classify(envKeys, answers[0]).None? {
      FirstSelectionIsFirstValid(envKeys, answers[1..]);
      var rest := answers[1..];
      assert forall j :: 1 <= j < |answers| ==> answers[j] == rest[j - 1];
    }
  }

  /** A typed number selects by the table: k in 1..n the k-th environment,
      n + 1 a custom connection, n + 2 exit, anything else nothing. */
  lemma ClassifyNumber(envKeys: seq<string>, k: int)
    ensures Classify(envKeys, IntToString(k))
            == if 1 <= k <= |envKeys| then Some(Environment(envKeys[k - 1]))
               else if k == |envKeys| + 1 then Some(CustomConnection)
               else if k == |envKeys| + 2 then Some(Exit)
               else None
  {
    IntRoundTrip(k);
  }

  /** Text that is not an integer is never a selection. */
  lemma NonNumberAsksAgain(envKeys: seq<string>, answer: string)
    requires ParseInt(answer).None?
    ensures Classify(envKeys, answer).None?
  {
  }

  /** The selections the menu can make. */
  predicate OnMenu(envKeys: seq<string>, s: Selection) {
    s.Environment? ==> s.name in envKeys
  }

  /** The number to type for a selection: an environment's position (counting
      from 1), n + 1 for a custom connection and n + 2 for exit. */
  function ChoiceNumber(envKeys: seq<string>, s: Selection): (k: int)
    requires OnMenu(envKeys, s)
    ensures 1 <= k <= |envKeys| + 2
    ensures s.Environment? ==> k <= |envKeys| && envKeys[k - 1] == s.name
  {
    match s
    case Environment(name) => IndexOf(envKeys, name) + 1
    case CustomConnection => |envKeys| + 1
    case Exit => |envKeys| + 2
  }

  /** The first position of `x` in `xs`. */
  function IndexOf(xs: seq<string>, x: string): (i: nat)
    requires x in xs
    ensures i < |xs| && xs[i] == x && forall j :: 0 <= j < i ==> xs[j] != x
  {
    if xs[0] == x then 0 else 1 + IndexOf(xs[1..], x)
  }

  /** Typing a selection's number picks that selection. */
  lemma ChoiceNumberSelects(envKeys: seq<string>, s: Selection)
    requires OnMenu(envKeys, s)
    ensures Classify(envKeys, IntToString(ChoiceNumber(envKeys, s))) == Some(s)
  {
    ClassifyNumber(envKeys, ChoiceNumber(envKeys, s));
  }

  /** Conversely, with distinct environment names, an answer that picks `s`
      is a way of writing `s`'s number, and `s` is on the menu. */
  lemma SelectedByItsNumber(envKeys: seq<string>, answer: string, s: Selection)
    requires forall i, j :: 0 <= i < j < |envKeys| ==> envKeys[i] != envKeys[j]
    requires Classify(envKeys, answer) == Some(s)
    ensures OnMenu(envKeys, s) && ParseInt(answer) == Some(ChoiceNumber(envKeys, s))
  {
    var k := ParseInt(answer).value;
    if s.Environment? {
      var i := IndexOf(envKeys, s.name);
      assert envKeys[k - 1] == s.name;
      assert i == k - 1;
    }
  }

  // What `_select_environment` hands back to `run`: the section name, the
  // sentinel string 'custom' or `None`; and what `run` does with it.

  /** The value returned by `_select_environment`. */
  function Returned(s: Selection): Option<string> {
    match s
    case Environment(name) => Some(name)
    case CustomConnection => Some("custom")
    case Exit => None
  }

  /** What `run` does next. */
  datatype RunStep = Quit | PromptCustom | ConnectTo(section: string)

  /** `run` as written: compare the returned value with `None`, then with 'custom'. */
  function RunStepOf(returned: Option<string>): RunStep {
    if returned.None? then Quit
    else if returned.value == "custom" then PromptCustom
    else ConnectTo(returned.value)
  }

  /** As written, an environment whose section is named "custom" can never be
      connected to: picking it opens the custom-connection prompt instead. */
  lemma SectionNamedCustomUnreachable(envKeys: seq<string>, k: nat)
    requires k < |envKeys| && envKeys[k] == "custom"
    ensures Classify(envKeys, IntToString(k + 1)) == Some(Environment("custom"))
    ensures RunStepOf(Returned(Classify(envKeys, IntToString(k + 1)).value)) == PromptCustom
    ensures Classify(envKeys, IntToString(|envKeys| + 1)) == Some(CustomConnection)
    ensures RunStepOf(Returned(CustomConnection)) == PromptCustom
    ensures forall a :: Classify(envKeys, a).Some? ==> RunStepOf(Returned(Classify(envKeys, a).value)) != ConnectTo("custom")
  {
    ClassifyNumber(envKeys, k + 1);
    ClassifyNumber(envKeys, |envKeys| + 1);
  }

  /** `run` dispatching on the selection itself rather than on a sentinel string. */
  function Dispatch(s: Selection): RunStep {
    match s
    case Environment(name) => ConnectTo(name)
    case CustomConnection => PromptCustom
    case Exit => Quit
  }

  /** Dispatching on the selection, every configured environment can be
      connected to, whatever its name. */
  lemma EverySectionReachable(envKeys: seq<string>, k: nat)
    requires k < |envKeys|
    ensures Classify(envKeys, IntToString(k + 1)).Some?
    ensures Dispatch(Classify(envKeys, IntToString(k + 1)).value) == ConnectTo(envKeys[k])
  {
    ClassifyNumber(envKeys, k + 1);
  }

  /** With distinct section names, distinct menu numbers lead to distinct
      steps when dispatching on the selection; as written, a section named
      "custom" and the custom-connection item lead to the same step. */
  lemma DistinctNumbersDistinctSteps(envKeys: seq<string>, j: int, k: int)
    requires forall i, i' :: 0 <= i < i' < |envKeys| ==> envKeys[i] != envKeys[i']
    requires 1 <= j <= |envKeys| + 2 && 1 <= k <= |envKeys| + 2 && j != k
    ensures Classify(envKeys, IntToString(j)).Some? && Classify(envKeys, IntToString(k)).Some?
    ensures Dispatch(Classify(envKeys, IntToString(j)).value) != Dispatch(Classify(envKeys, IntToString(k)).value)
  {
    ClassifyNumber(envKeys, j);
    ClassifyNumber(envKeys, k);
  }

  /** The two dispatches agree except on a section named "custom". */
  lemma DispatchAgreesElsewhere(s: Selection)
    requires s != Environment("custom")
    ensures RunStepOf(Returned(s)) == Dispatch(s)
  {
  }
}
