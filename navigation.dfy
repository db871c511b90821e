/** The dispatch loop (Menu.process) with its recursion made explicit: a
    stack of menu screens, the top one being run, each one the parent of
    the one above it. A session is driven by the raw key stream; the trace
    is the sequence of callback names invoked so far. */
module Navigation {
  import opened MenuData
  import opened Selection

  /** The navigator's state: the open menu levels (bottom = root) and the
      callbacks called so far. */
  datatype Nav = Nav(stack: seq<MenuNode>, calls: seq<string>)

  /** How a session stands once it stops reading keys. */
  datatype SessionOutcome =
    | Finished(calls: seq<string>, unread: seq<int>) // the root level was left
    | Failed(fault: Fault, calls: seq<string>)      // an exception escaped
    | Blocked(at: Nav, pos: nat)                    // waiting for a key in the top menu

  function Top(stack: seq<MenuNode>): MenuNode
    requires stack != []
  {
    stack[|stack| - 1]
  }

  function Pop(stack: seq<MenuNode>): seq<MenuNode>
    requires stack != []
  {
    stack[..|stack| - 1]
  }

  /** The parent argument the top level's `run` call receives. */
  function ParentOf(stack: seq<MenuNode>): Option<MenuNode>
  {
    if |stack| < 2 then None else Some(stack[|stack| - 2])
  }

  /** The calls recorded in an outcome. */
  function CallsOf(o: SessionOutcome): seq<string>
  {
    match o
    case Finished(c, _) => c
    case Failed(_, c) => c
    case Blocked(at, _) => at.calls
  }

  /** Acting on index getin confirmed in the top menu: the synthetic entry
      and an exitmenu option leave the level, a function option calls its
      registered callback (a name missing from funcs raises KeyError), a
      menu option opens the child with the current menu as its parent, and
      an option of any other type changes nothing. */
  function Dispatch(nav: Nav, getin: nat, funcs: set<string>): (r: Result<Nav>)
    requires nav.stack != []
    ensures r.Err? <==>
            getin > |Top(nav.stack).options| ||
            (getin < |Top(nav.stack).options| && Top(nav.stack).options[getin].Function?
             && Top(nav.stack).options[getin].fname !in funcs)
  {
    var menu := Top(nav.stack);
    var optioncount := |menu.options|;
    if getin == optioncount then Ok(Nav(Pop(nav.stack), nav.calls))
    else if getin > optioncount then Err(IndexError(getin))
    else
      match menu.options[getin]
      case Function(_, fname) =>
        if fname in funcs then Ok(Nav(nav.stack, nav.calls + [fname])) else Err(KeyError(fname))
      case Submenu(child) => Ok(Nav(nav.stack + [child], nav.calls))
      case ExitMenu(_) => Ok(Nav(Pop(nav.stack), nav.calls))
      case Unknown(_) => Ok(nav)
  }

  /** The level is left exactly on the synthetic entry or an exitmenu
      option, and then only that one level with the trace unchanged; every
      other choice keeps the levels below and the current one, and an
      option of unknown type changes nothing at all. */
  lemma LevelEndsExactlyOnExit(nav: Nav, getin: nat, funcs: set<string>)
    requires nav.stack != [] && Dispatch(nav, getin, funcs).Ok?
    ensures var after := Dispatch(nav, getin, funcs).value;
            var menu := Top(nav.stack);
            (|after.stack| < |nav.stack| <==>
               getin == |menu.options| || menu.options[getin].ExitMenu?) &&
            ((getin == |menu.options| || menu.options[getin].ExitMenu?) ==>
               after == Nav(Pop(nav.stack), nav.calls)) &&
            (getin < |menu.options| && menu.options[getin].Unknown? ==> after == nav) &&
            (|after.stack| >= |nav.stack| ==> after.stack[..|nav.stack|] == nav.stack)
  {
  }

  /** A function option calls its callback and stays in the same menu;
      an unregistered name is a KeyError. */
  lemma FunctionChoiceStays(nav: Nav, getin: nat, funcs: set<string>)
    requires nav.stack != [] && getin < |Top(nav.stack).options|
    requires Top(nav.stack).options[getin].Function?
    ensures var fname := Top(nav.stack).options[getin].fname;
            Dispatch(nav, getin, funcs) ==
              if fname in funcs then Ok(Nav(nav.stack, nav.calls + [fname])) else Err(KeyError(fname))
  {
  }

  /** A menu option opens the child, whose parent is the menu it was chosen
      in, so its last entry reads "Return to <that title> menu". */
  lemma SubmenuDescends(nav: Nav, getin: nat, funcs: set<string>)
    requires nav.stack != [] && getin < |Top(nav.stack).options|
    requires Top(nav.stack).options[getin].Submenu?
    ensures Dispatch(nav, getin, funcs).Ok?
    ensures var after := Dispatch(nav, getin, funcs).value;
            after.stack != [] && Top(after.stack) == Top(nav.stack).options[getin].menu &&
            Pop(after.stack) == nav.stack && after.calls == nav.calls &&
            ParentOf(after.stack) == Some(Top(nav.stack)) &&
            ParentTitle(LastOptionLabel(ParentOf(after.stack))) == Some(Top(nav.stack).title)
  {
    var after := Dispatch(nav, getin, funcs).value;
    assert Pop(after.stack) == nav.stack;
    LabelNamesParent(ParentOf(after.stack));
  }

  /** A whole session: run the top menu's selection loop from cursor 0 on
      the keys left, act on the confirmed index, and go on until the root
      level is left, a fault escapes or the keys run out. */
  function Session(nav: Nav, keys: seq<int>, funcs: set<string>): (r: SessionOutcome)
    ensures nav.calls <= CallsOf(r)
    ensures r.Finished? ==> |r.unread| <= |keys|
    ensures r.Failed? ==> r.fault == TypeError || (r.fault.KeyError? && r.fault.key !in funcs)
    ensures r.Blocked? ==> r.at.stack != [] && r.pos <= |Top(r.at.stack).options|
    decreases |keys|
  {
    if nav.stack == [] then Finished(nav.calls, keys)
    else
      match RunFrom(0, keys, |Top(nav.stack).options|)
      case Waiting(p) => Blocked(nav, p)
      case Crashed(e) => Failed(e, nav.calls)
      case Confirmed(i, rest) =>
        match Dispatch(nav, i, funcs)
        case Err(e) => Failed(e, nav.calls)
        case Ok(after) => Session(after, rest, funcs)
  }

  /** The cursor is not kept between visits of a menu: whatever happened
      before (a callback, a return from a submenu), an immediate Enter
      confirms the first entry. */
  lemma EnterConfirmsFirstEntry(nav: Nav, rest: seq<int>, funcs: set<string>)
    requires nav.stack != []
    ensures var d := Dispatch(nav, 0, funcs);
            Session(nav, [KeyEnter] + rest, funcs) ==
              if d.Ok? then Session(d.value, rest, funcs) else Failed(d.fault, nav.calls)
  {
    assert ([KeyEnter] + rest)[1..] == rest;
  }

  /** The explicit stack behaves like the source's recursion: levels below
      the running ones are untouched while those run, and once they are
      all left the level below resumes with the keys they did not read. */
  lemma {:induction false} SessionNests(below: seq<MenuNode>, nav: Nav, keys: seq<int>, funcs: set<string>)
    requires nav.stack != []
    ensures var o := Session(nav, keys, funcs);
            Session(Nav(below + nav.stack, nav.calls), keys, funcs) ==
              if o.Finished? then Session(Nav(below, o.calls), o.unread, funcs)
              else if o.Blocked? then Blocked(Nav(below + o.at.stack, o.at.calls), o.pos)
              else o
    decreases |keys|
  {
    var whole := Nav(below + nav.stack, nav.calls);
    assert Top(whole.stack) == Top(nav.stack);
    var n := |Top(nav.stack).options|;
    match RunFrom(0, keys, n)
    case Waiting(p) =>
    case Crashed(e) =>
    case Confirmed(i, rest) =>
      match Dispatch(nav, i, funcs)
      case Err(e) =>
      case Ok(after) =>
        var wnext := Dispatch(whole, i, funcs).value;
        assert wnext == Nav(below + after.stack, after.calls) by {
          if |after.stack| < |nav.stack| {
            assert Pop(whole.stack) == below + Pop(nav.stack);
          } else if |after.stack| > |nav.stack| {
            assert whole.stack + [Top(after.stack)] == below + (nav.stack + [Top(after.stack)]);
          }
        }
        if after.stack == [] {
          assert below + after.stack == below;
        } else {
          SessionNests(below, after, rest, funcs);
        }
  }

  /** The levels a session has open form a chain from the root: each level
      is a submenu option of the level below it. */
  ghost predicate IsChain(root: MenuNode, stack: seq<MenuNode>)
  {
    (stack != [] ==> stack[0] == root) &&
    forall i :: 1 <= i < |stack| ==> Submenu(stack[i]) in stack[i - 1].options
  }

  /** Every recorded call is a registered callback. */
  ghost predicate AllRegistered(calls: seq<string>, funcs: set<string>)
  {
    forall j :: 0 <= j < |calls| ==> calls[j] in funcs
  }

  lemma DispatchKeepsChain(root: MenuNode, nav: Nav, getin: nat, funcs: set<string>)
    requires nav.stack != [] && IsChain(root, nav.stack) && AllRegistered(nav.calls, funcs)
    requires Dispatch(nav, getin, funcs).Ok?
    ensures IsChain(root, Dispatch(nav, getin, funcs).value.stack)
    ensures AllRegistered(Dispatch(nav, getin, funcs).value.calls, funcs)
  {
    var after := Dispatch(nav, getin, funcs).value;
    if |after.stack| > |nav.stack| {
      assert after.stack == nav.stack + [Top(after.stack)];
      assert Submenu(Top(after.stack)) in Top(nav.stack).options;
    }
  }

  /** A session started at the root keeps its levels a chain from the root
      and only ever calls registered callbacks. */
  lemma {:induction false} SessionKeepsChain(root: MenuNode, nav: Nav, keys: seq<int>, funcs: set<string>)
    requires IsChain(root, nav.stack) && AllRegistered(nav.calls, funcs)
    ensures AllRegistered(CallsOf(Session(nav, keys, funcs)), funcs)
    ensures Session(nav, keys, funcs).Blocked? ==> IsChain(root, Session(nav, keys, funcs).at.stack)
    decreases |keys|
  {
    if nav.stack != [] {
      match RunFrom(0, keys, |Top(nav.stack).options|)
      case Waiting(_) =>
      case Crashed(_) =>
      case Confirmed(i, rest) =>
        match Dispatch(nav, i, funcs)
        case Err(_) =>
        case Ok(after) =>
          DispatchKeepsChain(root, nav, i, funcs);
          SessionKeepsChain(root, after, rest, funcs);
    }
  }

  /** How many levels deep a menu tree goes. */
  function Depth(m: MenuNode): nat
    decreases m, 1
  {
    1 + ChildrenDepth(m, 0)
  }

  /** The deepest submenu among the options of m from index k on. */
  function ChildrenDepth(m: MenuNode, k: nat): nat
    decreases m, 0, |m.options| - k
  {
    if k >= |m.options| then 0
    else
      var d := ChildrenDepth(m, k + 1);
      match m.options[k]
      case Submenu(c) => if Depth(c) > d then Depth(c) else d
      case _ => d
  }

  lemma {:induction false} SubmenuIsShallower(c: MenuNode, m: MenuNode, k: nat)
    requires exists j :: k <= j < |m.options| && m.options[j] == Submenu(c)
    ensures Depth(c) <= ChildrenDepth(m, k)
    decreases |m.options| - k
  {
    if m.options[k] != Submenu(c) {
      SubmenuIsShallower(c, m, k + 1);
    }
  }

  /** Level i of a chain sits at least i levels below the root. */
  lemma {:induction false} ChainLevelDepth(root: MenuNode, stack: seq<MenuNode>, i: nat)
    requires IsChain(root, stack) && i < |stack|
    ensures Depth(stack[i]) + i <= Depth(root)
    decreases i
  {
    if i > 0 {
      ChainLevelDepth(root, stack, i - 1);
      var j :| 0 <= j < |stack[i - 1].options| && stack[i - 1].options[j] == Submenu(stack[i]);
      SubmenuIsShallower(stack[i], stack[i - 1], 0);
    }
  }

  /** The open levels never outnumber the depth of the menu tree: for
      menus that form a finite tree (no option dict shared with or equal to
      an ancestor), the recursion of the source is as deep as the tree at
      most. */
  lemma ChainWithinDepth(root: MenuNode, stack: seq<MenuNode>)
    requires IsChain(root, stack)
    ensures |stack| <= Depth(root)
  {
    if stack != [] {
      ChainLevelDepth(root, stack, |stack| - 1);
    }
  }

  /** The dispatch loop driven directly by the indices `run` confirms, one
      per iteration; once the root level is left the rest is not read. */
  function Replay(nav: Nav, choices: seq<nat>, funcs: set<string>): (r: Result<Nav>)
    ensures r.Ok? ==> nav.calls <= r.value.calls
    decreases |choices|
  {
    if nav.stack == [] || choices == [] then Ok(nav)
    else
      match Dispatch(nav, choices[0], funcs)
      case Err(e) => Err(e)
      case Ok(after) => Replay(after, choices[1..], funcs)
  }

  /** The keys that pick each index by its digit and confirm it with Enter. */
  function DigitKeys(choices: seq<nat>): seq<int>
    decreases |choices|
  {
    if choices == [] then [] else [KeyOne + choices[0], KeyEnter] + DigitKeys(choices[1..])
  }

  /** A tree in which every menu has at most eight options, so that every
      entry has a digit key of its own. */
  ghost predicate SmallTree(m: MenuNode)
    decreases m
  {
    |m.options| <= 8 &&
    forall j :: 0 <= j < |m.options| && m.options[j].Submenu? ==> SmallTree(m.options[j].menu)
  }

  ghost predicate AllSmall(stack: seq<MenuNode>)
  {
    forall i :: 0 <= i < |stack| ==> SmallTree(stack[i])
  }

  /** In a menu of at most eight options, digit c + 1 and Enter confirm entry c. */
  lemma DigitThenEnterConfirms(c: nat, n: nat, rest: seq<int>)
    requires c <= n <= 8
    ensures RunFrom(0, [KeyOne + c, KeyEnter] + rest, n) == Confirmed(c, rest)
  {
    var keys := [KeyOne + c, KeyEnter] + rest;
    assert keys[1..] == [KeyEnter] + rest;
    assert keys[1..][1..] == rest;
  }

  /** Under the key stream that spells out a sequence of indices, the
      session acts exactly as the index-driven dispatch loop: it ends in the
      same state, or fails with the same fault, or has left the root level
      and called the same callbacks. */
  lemma {:induction false} DigitsFollowReplay(nav: Nav, choices: seq<nat>, rest: seq<int>, funcs: set<string>)
    requires AllSmall(nav.stack)
    requires !(Replay(nav, choices, funcs).Err? && Replay(nav, choices, funcs).fault.IndexError?)
    ensures var r := Replay(nav, choices, funcs);
            var o := Session(nav, DigitKeys(choices) + rest, funcs);
            (r.Ok? && r.value.stack != [] ==> o == Session(r.value, rest, funcs)) &&
            (r.Ok? && r.value.stack == [] ==> o.Finished? && o.calls == r.value.calls) &&
            (r.Err? ==> o.Failed? && o.fault == r.fault)
    decreases |choices|
  {
    if nav.stack != [] && choices != [] {
      var c := choices[0];
      var menu := Top(nav.stack);
      assert SmallTree(menu);
      var keys := DigitKeys(choices) + rest;
      var tail := DigitKeys(choices[1..]) + rest;
      assert keys == [KeyOne + c, KeyEnter] + tail;
      DigitThenEnterConfirms(c, |menu.options|, tail);
      match Dispatch(nav, c, funcs)
      case Err(_) =>
      case Ok(after) =>
        assert AllSmall(after.stack) by {
          if |after.stack| > |nav.stack| {
            assert after.stack == nav.stack + [Top(after.stack)];
          }
        }
        DigitsFollowReplay(after, choices[1..], rest, funcs);
    } else if choices == [] {
      assert DigitKeys(choices) + rest == rest;
    }
  }

  /** Menu.process on the root menu, the recursion replaced by an explicit
      stack of open levels. */
  method Process(root: MenuNode, funcs: set<string>, keys: seq<int>) returns (out: SessionOutcome)
    ensures out == Session(Nav([root], []), keys, funcs)
  {
    var stack := [root];
    var calls: seq<string> := [];
    var input := keys;
    while stack != []
      invariant Session(Nav([root], []), keys, funcs) == Session(Nav(stack, calls), input, funcs)
      decreases |input|
    {
      var menu := stack[|stack| - 1];
      var optioncount := |menu.options|;
      var selected := Run(menu, input);
      match selected
      case Waiting(p) =>
        return Blocked(Nav(stack, calls), p);
      case Crashed(e) =>
        return Failed(e, calls);
      case Confirmed(getin, rest) =>
        input := rest;
        if getin == optioncount {
          stack := stack[..|stack| - 1];
        } else {
          match menu.options[getin]
          case Function(_, fname) =>
            if fname !in funcs {
              return Failed(KeyError(fname), calls);
            }
            calls := calls + [fname];
          case Submenu(child) =>
            stack := stack + [child];
          case ExitMenu(_) =>
            stack := stack[..|stack| - 1];
          case Unknown(_) =>
        }
    }
    return Finished(calls, input);
  }

  /** A session started at the root only calls registered callbacks and,
      while it waits for a key, shows a level of the tree no deeper than
      the tree itself. */
  lemma ProcessStaysInTree(root: MenuNode, keys: seq<int>, funcs: set<string>)
    ensures AllRegistered(CallsOf(Session(Nav([root], []), keys, funcs)), funcs)
    ensures var o := Session(Nav([root], []), keys, funcs);
            o.Blocked? ==> IsChain(root, o.at.stack) && |o.at.stack| <= Depth(root)
  {
    SessionKeepsChain(root, Nav([root], []), keys, funcs);
    var o := Session(Nav([root], []), keys, funcs);
    if o.Blocked? {
      ChainWithinDepth(root, o.at.stack);
    }
  }

  /** A session on a small tree: the cursor starts at 0 on every visit, so
      after returning from submenu A the Enter that re-entered A before now
      calls b; up from the first entry wraps to Exit, which ends the session.
      A callback name missing from the registry is a KeyError. */
  lemma Scenarios()
    ensures var a := MenuNode("A", "", []);
            var root := MenuNode("Root", "", [Function("B", "b"), Submenu(a)]);
            Session(Nav([root], []), [KeyDown, KeyEnter, KeyEnter, KeyEnter, KeyUp, KeyEnter], {"b"})
              == Finished(["b"], [])
    ensures var root := MenuNode("Root", "", [Function("Echo", "echo")]);
            Session(Nav([root], []), [KeyEnter, KeyEnter], {}) == Failed(KeyError("echo"), [])
  {
    var a := MenuNode("A", "", []);
    var root := MenuNode("Root", "", [Function("B", "b"), Submenu(a)]);
    var keys := [KeyDown, KeyEnter, KeyEnter, KeyEnter, KeyUp, KeyEnter];
    var funcs := {"b"};
    // down to A and open it
    assert RunFrom(0, keys, 2) == Confirmed(1, keys[2..]) by {
      assert keys[1..][1..] == keys[2..];
    }
    assert Top([root]) == root && root.options[1] == Submenu(a) && [root] + [a] == [root, a];
    assert Dispatch(Nav([root], []), 1, funcs) == Ok(Nav([root, a], []));
    // A has no options: its entry 0 is "Return to Root menu"
    assert RunFrom(0, keys[2..], 0) == Confirmed(0, keys[3..]) by {
      assert keys[2..][1..] == keys[3..];
    }
    assert Dispatch(Nav([root, a], []), 0, funcs) == Ok(Nav([root], []));
    // back at Root the cursor is 0 again: Enter calls b
    assert RunFrom(0, keys[3..], 2) == Confirmed(0, keys[4..]) by {
      assert keys[3..][1..] == keys[4..];
    }
    assert root.options[0] == Function("B", "b") && [] + ["b"] == ["b"];
    assert Dispatch(Nav([root], []), 0, funcs) == Ok(Nav([root], ["b"]));
    // up from 0 wraps to Exit
    assert RunFrom(0, keys[4..], 2) == Confirmed(2, []) by {
      assert keys[4..][1..] == [KeyEnter];
      assert keys[4..][1..][1..] == [];
    }
    assert Dispatch(Nav([root], ["b"]), 2, funcs) == Ok(Nav([], ["b"]));
    assert Session(Nav([root], ["b"]), keys[4..], funcs) == Finished(["b"], []);
    assert Session(Nav([root], []), keys[3..], funcs) == Finished(["b"], []);
    assert Session(Nav([root, a], []), keys[2..], funcs) == Finished(["b"], []);
  }
}
