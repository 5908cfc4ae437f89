/** The terminal a root menu talks to, reduced to what the menu can observe:
    the lines the user will type, given in advance as a script, and the
    list of things the menu asked the terminal to do. */
module Terminal {
  import opened Common

  /** One request the menu made of the terminal. */
  datatype Event = Clear | Shown(text: string) | Read

  /** What one read returns: a typed line (null included), or the end of
      the script, after which the session cannot go on. */
  datatype Input = Typed(line: Option<string>) | EndOfScript

  class Device {
    /** Lines still to be typed, in order. */
    var script: seq<Option<string>>
    /** Everything asked of the terminal so far, oldest first. */
    var log: seq<Event>

    constructor (script: seq<Option<string>>)
      ensures this.script == script && log == []
    {
      this.script := script;
      log := [];
    }

    /** `clearDisplay()`. */
    method ClearDisplay()
      modifies this`log
      ensures log == old(log) + [Clear]
    {
      log := log + [Clear];
    }

    /** `display(text)`. */
    method Display(text: string)
      modifies this`log
      ensures log == old(log) + [Shown(text)]
    {
      log := log + [Shown(text)];
    }

    /** `acceptInput()`: takes the next scripted line; with the script used
        up it reports `EndOfScript` and records nothing. */
    method AcceptInput() returns (r: Input)
      modifies this`script, this`log
      ensures old(script) == [] ==> r == EndOfScript && script == [] && log == old(log)
      ensures old(script) != [] ==>
                r == Typed(old(script)[0]) && script == old(script)[1..] && log == old(log) + [Read]
    {
      if script == [] {
        r := EndOfScript;
      } else {
        r := Typed(script[0]);
        script := script[1..];
        log := log + [Read];
      }
    }
  }
}
