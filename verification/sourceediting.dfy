/**
 The source-editing toggle: a button that swaps every editable root for a
 textarea holding the root's serialised data, and swaps it back.

 The state keeps what the plugin reads and writes, not the DOM it builds:
 what `data.get` returns for each root, the record of replaced roots
 (root name to the wrapper's `data-value`), the force-disable tokens of
 every registered command and the pending-actions count.

 The host's serialiser is not transparent: after `data.set` of a root
 with a string `x`, `data.get` of that root returns `normalize(x)`, an
 unknown function of `x` (the host parses `x` into its document model and
 serialises it again). Setting one root does not change what the others
 return.
 */
module SourceEditing {
  import opened Wrappers

  /** The token the plugin attaches to every command while active. */
  const CommandForceDisableId: string := "SourceEditingMode"

  /** The editor UI's editable; `hasExternalElement` when the editable is
      hosted in a DOM element supplied from outside. */
  datatype Editable = Editable(hasExternalElement: bool)

  datatype State = State(
    isSourceEditingMode: bool,
    /** Names of the editing view's DOM roots, in iteration order. */
    domRoots: seq<string>,
    /** What `data.get` returns for each root. */
    data: map<string, string>,
    /** The replaced roots and the current `data-value` of each wrapper. */
    replacedRoots: map<string, string>,
    /** Each registered command and its force-disable tokens. */
    commands: map<string, set<string>>,
    pendingActions: nat,
    /** Whether the `sourceEditing` handler was attached at `init`. */
    allowed: bool,
    /** The host's parse-and-serialise: what `data.get` returns after
        `data.set` of a string. */
    normalize: string -> string)

  /** One `input` event of a textarea: the root it replaces and the
      textarea's value after the edit. */
  datatype InputEvent = InputEvent(root: string, text: string)

  /** The data and replaced-roots record as the show loop updates them. */
  datatype Swap = Swap(data: map<string, string>, replaced: map<string, string>)

  predicate Distinct(roots: seq<string>)
  {
    forall i, j :: 0 <= i < j < |roots| ==> roots[i] != roots[j]
  }

  function RootSet(roots: seq<string>): set<string>
  {
    set r | r in roots
  }

  /** What the host guarantees of its roots: the DOM roots are keys of a
      map, so distinct, and each is a root of the document data. */
  predicate WellFormed(s: State)
  {
    && Distinct(s.domRoots)
    && forall r :: r in s.domRoots ==> r in s.data
  }

  /** The plugin is active when its handler is attached and the mode is on. */
  predicate Active(s: State)
  {
    s.allowed && s.isSourceEditingMode
  }

  /** The bookkeeping invariant: while active every DOM root is replaced
      and every command carries the token; otherwise nothing is replaced
      and no command carries it. */
  predicate Inv(s: State)
  {
    && WellFormed(s)
    && (Active(s) ==> s.replacedRoots.Keys == RootSet(s.domRoots))
    && (!Active(s) ==> s.replacedRoots == map[])
    && forall c :: c in s.commands ==> (CommandForceDisableId in s.commands[c] <==> Active(s))
  }

  predicate NoCommandDisabledByPlugin(commands: map<string, set<string>>)
  {
    forall c :: c in commands ==> CommandForceDisableId !in commands[c]
  }

  // ---------------------------------------------------------------------
  // Construction and guard
  // ---------------------------------------------------------------------

  /** The guard evaluated at `init`: there is an editable and it is not
      hosted in an external element. */
  function IsAllowedToHandleSourceEditingMode(editable: Option<Editable>): (r: bool)
    ensures r <==> editable != None && !editable.value.hasExternalElement
  {
    match editable
    case None => false
    case Some(e) => !e.hasExternalElement
  }

  /** The plugin after construction and `init`: the mode is off, nothing
      is replaced. The token is private to the plugin, so no command can
      carry it yet. */
  function Init(
    domRoots: seq<string>, data: map<string, string>, commands: map<string, set<string>>,
    pendingActions: nat, editable: Option<Editable>, normalize: string -> string): (s: State)
    requires Distinct(domRoots)
    requires forall r :: r in domRoots ==> r in data
    requires NoCommandDisabledByPlugin(commands)
    ensures !s.isSourceEditingMode && s.replacedRoots == map[]
    ensures s.data == data && s.commands == commands && s.domRoots == domRoots
    ensures s.normalize == normalize
    ensures s.allowed <==> editable != None && !editable.value.hasExternalElement
    ensures Inv(s)
  {
    State(false, domRoots, data, map[], commands, pendingActions,
          IsAllowedToHandleSourceEditingMode(editable), normalize)
  }

  // ---------------------------------------------------------------------
  // Showing and hiding the source
  // ---------------------------------------------------------------------

  /** The loop of `_showSourceEditing` over the remaining roots: read the
      root's data, set it to the empty string (after which the host
      returns `cleared`), and record a wrapper holding what was read. */
  function ShowRoots(
    roots: seq<string>, data: map<string, string>, replaced: map<string, string>, cleared: string): (r: Swap)
    requires Distinct(roots)
    requires forall k :: k in roots ==> k in data
    ensures r.data.Keys == data.Keys
    ensures r.replaced.Keys == replaced.Keys + RootSet(roots)
    ensures forall k :: k in roots ==> r.data[k] == cleared && r.replaced[k] == data[k]
    ensures forall k :: k in data && k !in roots ==> r.data[k] == data[k]
    ensures forall k :: k in replaced && k !in roots ==> r.replaced[k] == replaced[k]
    decreases |roots|
  {
    if roots == [] then Swap(data, replaced)
    else
      var root, rest := roots[0], roots[1..];
      DistinctTail(roots);
      assert RootSet(roots) == {root} + RootSet(rest);
      ShowRoots(rest, data[root := cleared], replaced[root := data[root]], cleared)
  }

  /** The tail of distinct roots is distinct and does not hold the head. */
  lemma DistinctTail(roots: seq<string>)
    requires Distinct(roots) && roots != []
    ensures Distinct(roots[1..]) && roots[0] !in roots[1..]
  {
    var rest := roots[1..];
    forall i, j | 0 <= i < j < |rest| ensures rest[i] != rest[j] {
      assert rest[i] == roots[i + 1] && rest[j] == roots[j + 1];
    }
  }

  /** `_showSourceEditing`: what `data.get` returns for every DOM root
      moves into a wrapper and the root is set to the empty string;
      nothing else changes. */
  function ShowSourceEditing(s: State): (t: State)
    requires WellFormed(s)
    ensures t.data.Keys == s.data.Keys
    ensures t.replacedRoots.Keys == s.replacedRoots.Keys + RootSet(s.domRoots)
    ensures forall r :: r in s.domRoots ==>
      t.data[r] == s.normalize("") && t.replacedRoots[r] == s.data[r]
    ensures forall k :: k in s.data && k !in s.domRoots ==> t.data[k] == s.data[k]
    ensures forall k :: k in s.replacedRoots && k !in s.domRoots ==>
      t.replacedRoots[k] == s.replacedRoots[k]
    ensures t.(data := s.data, replacedRoots := s.replacedRoots) == s
  {
    var swap := ShowRoots(s.domRoots, s.data, s.replacedRoots, s.normalize(""));
    s.(data := swap.data, replacedRoots := swap.replaced)
  }

  /** `_hideSourceEditing`: every replaced root is set to its wrapper's
      current value (so the host then returns that value normalised), the
      record is cleared; roots that were not replaced keep their data. */
  function HideSourceEditing(s: State): (t: State)
    ensures t.data.Keys == s.data.Keys + s.replacedRoots.Keys
    ensures forall k :: k in s.replacedRoots ==> t.data[k] == s.normalize(s.replacedRoots[k])
    ensures forall k :: k in s.data && k !in s.replacedRoots ==> t.data[k] == s.data[k]
    ensures t.replacedRoots == map[]
    ensures t.(data := s.data, replacedRoots := s.replacedRoots) == s
  {
    var written := map k | k in s.replacedRoots :: s.normalize(s.replacedRoots[k]);
    s.(data := s.data + written, replacedRoots := map[])
  }

  // ---------------------------------------------------------------------
  // Command tokens
  // ---------------------------------------------------------------------

  /** `_disableCommands`: every command gains the token and keeps the
      tokens it had. */
  function DisableCommands(commands: map<string, set<string>>): (r: map<string, set<string>>)
    ensures r.Keys == commands.Keys
    ensures forall c :: c in r ==>
      CommandForceDisableId in r[c] && r[c] - {CommandForceDisableId} == commands[c] - {CommandForceDisableId}
  {
    map c | c in commands :: commands[c] + {CommandForceDisableId}
  }

  /** `_enableCommands`: every command loses the token and keeps every
      other token. */
  function EnableCommands(commands: map<string, set<string>>): (r: map<string, set<string>>)
    ensures r.Keys == commands.Keys
    ensures forall c :: c in r ==>
      CommandForceDisableId !in r[c] && r[c] + {CommandForceDisableId} == commands[c] + {CommandForceDisableId}
  {
    map c | c in commands :: commands[c] - {CommandForceDisableId}
  }

  /** Enabling after disabling restores every command's tokens when none
      carried the plugin's token before. */
  lemma EnableUndoesDisable(commands: map<string, set<string>>)
    requires NoCommandDisabledByPlugin(commands)
    ensures EnableCommands(DisableCommands(commands)) == commands
  {
  }

  // ---------------------------------------------------------------------
  // Events
  // ---------------------------------------------------------------------

  /** The button's `execute` listener together with the `sourceEditing`
      handler attached at `init`: the flag flips; when the handler is
      attached the roots are shown and the commands disabled, or the
      roots hidden and the commands enabled. */
  function Execute(s: State): (t: State)
    requires WellFormed(s)
    ensures t.isSourceEditingMode == !s.isSourceEditingMode
    ensures !s.allowed ==> t == s.(isSourceEditingMode := !s.isSourceEditingMode)
    ensures t.domRoots == s.domRoots && t.allowed == s.allowed
    ensures t.pendingActions == s.pendingActions && t.commands.Keys == s.commands.Keys
    ensures WellFormed(t)
    ensures Inv(s) ==> Inv(t)
  {
    var flipped := s.(isSourceEditingMode := !s.isSourceEditingMode);
    if !s.allowed then flipped
    else if flipped.isSourceEditingMode then
      var shown := ShowSourceEditing(flipped);
      shown.(commands := DisableCommands(shown.commands))
    else
      var hidden := HideSourceEditing(flipped);
      hidden.(commands := EnableCommands(hidden.commands))
  }

  /** The button is enabled exactly when no action is pending. */
  predicate ButtonEnabled(s: State)
  {
    s.pendingActions == 0
  }

  /** A click on the button: it executes only while enabled. */
  function Press(s: State): (t: State)
    requires WellFormed(s)
    ensures t.isSourceEditingMode != s.isSourceEditingMode <==> s.pendingActions == 0
    ensures s.pendingActions > 0 ==> t == s
    ensures ButtonEnabled(t) == ButtonEnabled(s)
    ensures WellFormed(t) && (Inv(s) ==> Inv(t))
  {
    if ButtonEnabled(s) then Execute(s) else s
  }

  /** An `input` event of the textarea replacing `root`: its wrapper's
      value becomes the textarea's; no root's data changes. Without a
      textarea for `root` there is no event to handle. */
  function Input(s: State, root: string, text: string): (t: State)
    ensures t.data == s.data
    ensures t.replacedRoots.Keys == s.replacedRoots.Keys
    ensures root in s.replacedRoots ==> t.replacedRoots[root] == text
    ensures forall k :: k in s.replacedRoots && k != root ==> t.replacedRoots[k] == s.replacedRoots[k]
    ensures t.(replacedRoots := s.replacedRoots) == s
    ensures Inv(s) ==> Inv(t)
  {
    if root in s.replacedRoots then s.(replacedRoots := s.replacedRoots[root := text]) else s
  }

  /** The host's pending-actions tracker gains an action. */
  function AddPendingAction(s: State): (t: State)
    ensures !ButtonEnabled(t)
    ensures t.(pendingActions := s.pendingActions) == s
    ensures Inv(s) ==> Inv(t)
  {
    s.(pendingActions := s.pendingActions + 1)
  }

  /** The host's pending-actions tracker drops an outstanding action. */
  function RemovePendingAction(s: State): (t: State)
    requires s.pendingActions > 0
    ensures ButtonEnabled(t) <==> s.pendingActions == 1
    ensures t.(pendingActions := s.pendingActions) == s
    ensures Inv(s) ==> Inv(t)
  {
    s.(pendingActions := s.pendingActions - 1)
  }

  // ---------------------------------------------------------------------
  // Properties of runs
  // ---------------------------------------------------------------------

  /** Input events applied in order. */
  function ApplyInputs(s: State, events: seq<InputEvent>): (t: State)
    ensures t.data == s.data
    ensures t.replacedRoots.Keys == s.replacedRoots.Keys
    ensures forall k :: k in s.replacedRoots ==>
      t.replacedRoots[k] == LastInput(events, k, s.replacedRoots[k])
    ensures t.(replacedRoots := s.replacedRoots) == s
    decreases |events|
  {
    if events == [] then s
    else
      var last := events[|events| - 1];
      Input(ApplyInputs(s, events[..|events| - 1]), last.root, last.text)
  }

  /** The text of the last event for `root`, or `initial` when there is
      none. */
  function LastInput(events: seq<InputEvent>, root: string, initial: string): string
    decreases |events|
  {
    if events == [] then initial
    else if events[|events| - 1].root == root then events[|events| - 1].text
    else LastInput(events[..|events| - 1], root, initial)
  }

  /** Distinct roots give as many replacements as there are roots. */
  lemma {:induction false} RootSetSize(roots: seq<string>)
    requires Distinct(roots)
    ensures |RootSet(roots)| == |roots|
    decreases |roots|
  {
    if roots != [] {
      var rest := roots[1..];
      DistinctTail(roots);
      RootSetSize(rest);
      assert RootSet(roots) == {roots[0]} + RootSet(rest);
    }
  }

  /** Turning the mode on with N editable roots makes exactly N
      replacements, one per root, each holding the root's data. */
  lemma ShowReplacesEachRoot(s: State)
    requires Inv(s) && s.allowed && !s.isSourceEditingMode
    ensures |Execute(s).replacedRoots| == |s.domRoots|
    ensures forall r :: r in s.domRoots ==>
      r in Execute(s).replacedRoots && Execute(s).replacedRoots[r] == s.data[r]
    ensures forall c :: c in Execute(s).commands ==>
      Execute(s).commands[c] == s.commands[c] + {CommandForceDisableId}
  {
    RootSetSize(s.domRoots);
  }

  /** With the mode off and the handler attached, turning the mode on
      and off again touches only the data: nothing stays replaced and
      every command has its own tokens again. */
  lemma ToggleOnOffKeepsBookkeeping(s: State)
    requires Inv(s) && s.allowed && !s.isSourceEditingMode
    ensures Execute(Execute(s)).(data := s.data) == s
  {
    var flipped := s.(isSourceEditingMode := true);
    var shown := ShowSourceEditing(flipped);
    var on := shown.(commands := DisableCommands(shown.commands));
    assert Execute(s) == on;
    var hidden := HideSourceEditing(on.(isSourceEditingMode := false));
    assert Execute(on) == hidden.(commands := EnableCommands(hidden.commands));
    EnableUndoesDisable(s.commands);
  }

  /** With the mode off and the handler attached, turning the mode on and
      off again sets each DOM root to the string the host returned for it
      before, which the host then returns normalised. */
  lemma ToggleOnOffWritesBackData(s: State)
    requires Inv(s) && s.allowed && !s.isSourceEditingMode
    ensures forall r :: r in s.domRoots ==>
      r in Execute(s).replacedRoots && Execute(s).replacedRoots[r] == s.data[r]
    ensures Execute(Execute(s)).data.Keys == s.data.Keys
    ensures forall k :: k in s.data && k !in s.domRoots ==> Execute(Execute(s)).data[k] == s.data[k]
    ensures forall r :: r in s.domRoots ==> Execute(Execute(s)).data[r] == s.normalize(s.data[r])
  {
  }

  /** Turning the mode on and straight off again, with no edits, sets each
      DOM root to exactly the string the host returned for it before, so
      the root then holds that string normalised. Nothing stays replaced,
      every command has its own tokens again and nothing else changes. */
  lemma ToggleOnOffRestores(s: State)
    requires Inv(s) && !s.isSourceEditingMode
    ensures var on, off := Execute(s), Execute(Execute(s));
      && (s.allowed ==> forall r :: r in s.domRoots ==>
            r in on.replacedRoots && on.replacedRoots[r] == s.data[r])
      && off.(data := s.data) == s
      && off.data.Keys == s.data.Keys
      && (forall k :: k in s.data && !(s.allowed && k in s.domRoots) ==> off.data[k] == s.data[k])
      && (s.allowed ==> forall r :: r in s.domRoots ==> off.data[r] == s.normalize(s.data[r]))
  {
    if s.allowed {
      ToggleOnOffKeepsBookkeeping(s);
      ToggleOnOffWritesBackData(s);
    }
  }

  /** When the host returns each root's data unchanged from a second round
      trip through its serialiser, turning the mode on and straight off
      again restores the whole state. */
  lemma ToggleOnOffIsIdentity(s: State)
    requires Inv(s) && !s.isSourceEditingMode
    requires forall r :: r in s.domRoots ==> s.normalize(s.data[r]) == s.data[r]
    ensures Execute(Execute(s)) == s
  {
    ToggleOnOffRestores(s);
    var off := Execute(Execute(s));
    assert off.data == s.data by {
      forall k | k in s.data ensures off.data[k] == s.data[k] {
        if s.allowed && k in s.domRoots {
          assert off.data[k] == s.normalize(s.data[k]);
        }
      }
    }
    assert off == off.(data := s.data);
  }

  /** Turning the mode off after a series of edits sets each root to its
      last edited value (or to the data it had when the mode was turned
      on), so the root then holds that value normalised; it leaves the
      other roots alone and removes only the plugin's token from the
      commands. */
  lemma EditsAreWrittenBack(s: State, events: seq<InputEvent>)
    requires Inv(s) && Active(s)
    ensures var t := Execute(ApplyInputs(s, events));
      && !t.isSourceEditingMode && t.replacedRoots == map[]
      && (forall r :: r in s.domRoots ==>
            t.data[r] == s.normalize(LastInput(events, r, s.replacedRoots[r])))
      && (forall k :: k in s.data && k !in s.domRoots ==> t.data[k] == s.data[k])
      && (forall c :: c in t.commands ==> t.commands[c] == s.commands[c] - {CommandForceDisableId})
  {
  }
}
