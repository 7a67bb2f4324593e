/**
 * The command console: a text field and the history of submitted commands.
 * Editing the field replaces its content.  Enter with a field that is not
 * blank appends the field, untrimmed, to the history, loads the example graph
 * (whatever the command says) and clears the field.  Any other key, and Enter
 * on a blank field, changes nothing.
 */
module PromptCli {
  import opened Graph

  // --------------------------------------------------------------- trimming

  /**
   * The characters `String.prototype.trim` removes: the white space and line
   * terminator characters of section 12.2 and 12.3 of ECMA-262 (tab, vertical
   * tab, form feed, space, no-break space, byte order mark, the other space
   * separators, line feed, carriage return, line and paragraph separators).
   */
  predicate IsTrimmed(ch: char)
  {
    || ch == '\t' || ch == '\n' || ch == '\U{000B}' || ch == '\U{000C}' || ch == '\r'
    || ch == ' ' || ch == '\U{00A0}' || ch == '\U{1680}'
    || ('\U{2000}' <= ch <= '\U{200A}')
    || ch == '\U{2028}' || ch == '\U{2029}' || ch == '\U{202F}' || ch == '\U{205F}'
    || ch == '\U{3000}' || ch == '\U{FEFF}'
  }

  /** `s` without its leading white space. */
  function TrimStart(s: string): (r: string)
    ensures |r| <= |s| && r == s[|s| - |r|..]
    ensures r == [] || !IsTrimmed(r[0])
    ensures forall i :: 0 <= i < |s| - |r| ==> IsTrimmed(s[i])
  {
    if s != [] && IsTrimmed(s[0]) then TrimStart(s[1..]) else s
  }

  /** `s` without its trailing white space. */
  function TrimEnd(s: string): (r: string)
    ensures |r| <= |s| && r == s[..|r|]
    ensures r == [] || !IsTrimmed(r[|r| - 1])
    ensures forall i :: |r| <= i < |s| ==> IsTrimmed(s[i])
  {
    if s != [] && IsTrimmed(s[|s| - 1]) then TrimEnd(s[..|s| - 1]) else s
  }

  /** `input.trim()`: no longer than `s`, and neither starting nor ending with white space. */
  function Trim(s: string): (r: string)
    ensures |r| <= |s|
    ensures r == [] || (!IsTrimmed(r[0]) && !IsTrimmed(r[|r| - 1]))
  {
    TrimEnd(TrimStart(s))
  }

  /**
   * What `trim()` keeps is a contiguous part of the field, and all it cuts
   * off, before and after, is white space.
   */
  lemma TrimIsCut(s: string)
    ensures CutAt(s, |s| - |TrimStart(s)|, Trim(s))
  {
    var t := TrimStart(s);
    CutOfTails(s, |s| - |t|, t, TrimEnd(t));
  }

  /** Cutting white space off the front and then off the back is one cut. */
  lemma CutOfTails(s: string, i: int, t: string, r: string)
    requires 0 <= i <= |s| && t == s[i..] && |r| <= |t| && r == t[..|r|]
    requires forall k :: 0 <= k < i ==> IsTrimmed(s[k])
    requires forall k :: |r| <= k < |t| ==> IsTrimmed(t[k])
    ensures CutAt(s, i, r)
  {
    assert t[..|r|] == s[i..i + |r|];
    forall k | i + |r| <= k < |s| ensures IsTrimmed(s[k]) {
      assert s[k] == t[k - i];
    }
  }

  /** `r` is the part of `s` from index `i` on, with only white space around it. */
  predicate CutAt(s: string, i: int, r: string)
  {
    && 0 <= i <= |s| - |r| && r == s[i..i + |r|]
    && (forall k :: 0 <= k < i ==> IsTrimmed(s[k]))
    && (forall k :: i + |r| <= k < |s| ==> IsTrimmed(s[k]))
  }

  /** A field is blank when every character of it is white space. */
  predicate Blank(s: string)
  {
    forall i :: 0 <= i < |s| ==> IsTrimmed(s[i])
  }

  /** Trimming leaves nothing exactly when the field is blank. */
  lemma TrimEmptyIffBlank(s: string)
    ensures Trim(s) == "" <==> Blank(s)
  {
    var t := TrimStart(s);
    if t != [] {
      assert TrimEnd(t)[0] == t[0];
    }
  }

  // ------------------------------------------------------------ the console

  /** The console's own state and the graph it hands to the page. */
  datatype CliState = CliState(input: string, history: seq<string>, graph: Option<GraphData>)

  /** The enter key, as the keyboard event names it. */
  const Enter: string := "Enter"

  /** The change handler: the field takes the new value, nothing else changes. */
  function InputChanged(s: CliState, value: string): (r: CliState)
    ensures r.input == value && r.history == s.history && r.graph == s.graph
  {
    s.(input := value)
  }

  /** A key press submits when it is Enter and the field is not blank. */
  predicate Submits(s: CliState, key: string)
  {
    key == Enter && Trim(s.input) != ""
  }

  /** The key handler. */
  function KeyDown(s: CliState, key: string, example: GraphData): (r: CliState)
    ensures Submits(s, key) ==> r == CliState("", s.history + [s.input], Some(example))
    ensures !Submits(s, key) ==> r == s
  {
    if key == Enter && Trim(s.input) != "" then
      CliState("", s.history + [s.input], Some(example))
    else
      s
  }

  /** A submit needs a field with something other than white space in it. */
  lemma SubmitsIffNotBlank(s: CliState, key: string)
    ensures Submits(s, key) <==> key == Enter && !Blank(s.input)
  {
    TrimEmptyIffBlank(s.input);
  }

  /** A user action on the console. */
  datatype Action = Type(value: string) | Press(key: string)

  function Step(s: CliState, a: Action, example: GraphData): CliState
  {
    match a
    case Type(v) => InputChanged(s, v)
    case Press(k) => KeyDown(s, k, example)
  }

  function Run(s: CliState, actions: seq<Action>, example: GraphData): CliState
    decreases |actions|
  {
    if actions == [] then s else Run(Step(s, actions[0], example), actions[1..], example)
  }

  /** No entry of the history is blank. */
  predicate HistoryNonBlank(h: seq<string>)
  {
    forall i :: 0 <= i < |h| ==> !Blank(h[i])
  }

  /**
   * Over any run of actions the history only grows at its end, the entries
   * already there keep their order, no blank command is ever recorded, and
   * the graph is either unchanged or the example graph.
   */
  lemma {:induction false} RunHistory(s: CliState, actions: seq<Action>, example: GraphData)
    requires HistoryNonBlank(s.history)
    decreases |actions|
    ensures var r := Run(s, actions, example);
      && |s.history| <= |r.history| && r.history[..|s.history|] == s.history
      && HistoryNonBlank(r.history)
      && (r.graph == s.graph || r.graph == Some(example))
  {
    if actions != [] {
      var s' := Step(s, actions[0], example);
      if actions[0].Press? && Submits(s, actions[0].key) {
        SubmitsIffNotBlank(s, actions[0].key);
        assert s'.history == s.history + [s.input];
      }
      RunHistory(s', actions[1..], example);
      var r := Run(s', actions[1..], example);
      assert r.history[..|s.history|] == r.history[..|s'.history|][..|s.history|];
    }
  }

  /**
   * The console as an object: the field, the history and the graph it has
   * set, with the example graph it was given.
   */
  class Console {
    var input: string
    var history: seq<string>
    var graph: Option<GraphData>
    const exampleGraph: GraphData

    function State(): CliState
      reads this
    {
      CliState(input, history, graph)
    }

    /** An empty field, no history, no graph yet. */
    constructor (example: GraphData)
      ensures State() == CliState("", [], None) && exampleGraph == example
    {
      input, history, graph := "", [], None;
      exampleGraph := example;
    }

    /** `handleInputChange`. */
    method HandleInputChange(value: string)
      modifies this
      ensures State() == InputChanged(old(State()), value)
    {
      input := value;
    }

    /** `handleKeyDown`. */
    method HandleKeyDown(key: string)
      modifies this
      ensures State() == KeyDown(old(State()), key, exampleGraph)
    {
      if key == Enter && Trim(input) != "" {
        history := history + [input];
        graph := Some(exampleGraph);
        input := "";
      }
    }
  }
}
