/**
 * Standard input as the manager reads it: the lines the user has still to
 * type, consumed one per `input()` call.
 */
module Terminal {
  import opened Wrappers

  class Console {
    /** The answers not read yet, in the order they will be typed. */
    var pending: seq<string>

    constructor (lines: seq<string>)
      ensures pending == lines
    {
      pending := lines;
    }

    /** `input(prompt)`: the next line, or `None` where Python raises `EOFError`
        because the input has ended. The prompt text itself is output and is
        not modelled. */
    method Input() returns (line: Option<string>)
      modifies this
      ensures old(pending) == [] ==> line == None && pending == []
      ensures old(pending) != [] ==> line == Some(old(pending)[0]) && pending == old(pending)[1..]
    {
      if pending == [] {
        line := None;
      } else {
        line := Some(pending[0]);
        pending := pending[1..];
      }
    }
  }
}
