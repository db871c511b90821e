/** The selection loop of one menu screen (Menu.run): a cursor over the
    entries 0..n, where n is the number of real options and entry n is the
    synthetic "Exit" / "Return" line, moved by key codes until Enter. */
module Selection {
  import opened MenuData

  /** Key codes as curses' getch reports them. */
  const KeyEnter: int := 10  // ord('\n')
  const KeyZero: int := 48   // ord('0')
  const KeyOne: int := 49    // ord('1')
  const KeyDown: int := 258  // curses KEY_DOWN
  const KeyUp: int := 259    // curses KEY_UP

  /** ord(str(n + 1)): the code of the highest digit key of a menu with n
      options. ord() only accepts a one-character string, so this fails
      with a TypeError once n + 1 has two decimal digits. */
  function OrdOfCount(n: nat): (r: Result<int>)
    ensures r.Ok? <==> n + 1 <= 9
    ensures r.Ok? ==> KeyOne <= r.value <= KeyZero + 9
  {
    if n + 1 <= 9 then Ok(KeyZero + n + 1) else Err(TypeError)
  }

  /** The arrow branches of the key test, reached when the digit test is false. */
  function Arrow(pos: nat, key: int, n: nat): (r: nat)
    requires pos <= n
    ensures r <= n
  {
    if key == KeyDown then (if pos < n then pos + 1 else 0)
    else if key == KeyUp then (if pos > 0 then pos - 1 else n)
    else pos
  }

  /** One key press: the new cursor position, or the TypeError the digit
      test raises. The digit test is `x >= ord('1') and x <= ord(str(n+1))`;
      since `and` short-circuits, its right operand (and so its TypeError)
      is only reached for key codes of at least ord('1'). */
  function Step(pos: nat, key: int, n: nat): (r: Result<nat>)
    requires pos <= n
    ensures r.Ok? ==> r.value <= n
    ensures r.Err? <==> key >= KeyOne && n >= 9
    ensures r.Err? ==> r.fault == TypeError
  {
    if key >= KeyOne then
      match OrdOfCount(n)
      case Err(e) => Err(e)
      case Ok(top) => if key <= top then Ok(key - KeyZero - 1) else Ok(Arrow(pos, key, n))
    else Ok(Arrow(pos, key, n))
  }

  /** Down arrow: one entry further, wrapping from the synthetic entry to
      the first option; in a menu of nine or more options it raises. */
  lemma DownArrow(pos: nat, n: nat)
    requires pos <= n
    ensures Step(pos, KeyDown, n) ==
            if n >= 9 then Err(TypeError) else Ok(if pos < n then pos + 1 else 0)
  {
  }

  /** Up arrow: one entry back, wrapping from the first option to the
      synthetic entry; in a menu of nine or more options it raises. */
  lemma UpArrow(pos: nat, n: nat)
    requires pos <= n
    ensures Step(pos, KeyUp, n) ==
            if n >= 9 then Err(TypeError) else Ok(if pos > 0 then pos - 1 else n)
  {
  }

  /** Up then down, and down then up, come back to the same entry. */
  lemma ArrowsUndoEachOther(pos: nat, n: nat)
    requires pos <= n <= 8
    ensures Step(pos, KeyUp, n).Ok? && Step(Step(pos, KeyUp, n).value, KeyDown, n) == Ok(pos)
    ensures Step(pos, KeyDown, n).Ok? && Step(Step(pos, KeyDown, n).value, KeyUp, n) == Ok(pos)
  {
  }

  /** Digit key k, for 1 <= k <= n + 1 <= 9, jumps straight to entry k - 1. */
  lemma DigitJumps(pos: nat, k: int, n: nat)
    requires pos <= n && 1 <= k <= n + 1 <= 9
    ensures Step(pos, KeyZero + k, n) == Ok(k - 1)
  {
  }

  /** Every key other than an in-range digit or an arrow (Enter among them)
      leaves the cursor where it is, unless it reaches the failing digit test. */
  lemma OtherKeysIgnored(pos: nat, key: int, n: nat)
    requires pos <= n
    requires key != KeyDown && key != KeyUp
    requires !(KeyOne <= key <= KeyZero + n + 1)
    ensures Step(pos, key, n) == if key >= KeyOne && n >= 9 then Err(TypeError) else Ok(pos)
  {
  }

  /** The cursor after a whole sequence of keys, Enter treated like any key. */
  function Walk(pos: nat, keys: seq<int>, n: nat): (r: Result<nat>)
    requires pos <= n
    ensures r.Ok? ==> r.value <= n
    decreases |keys|
  {
    if keys == [] then Ok(pos)
    else
      match Step(pos, keys[0], n)
      case Err(e) => Err(e)
      case Ok(p) => Walk(p, keys[1..], n)
  }

  /** A sequence of keys fails exactly when the menu has nine or more
      options and some key reaches the digit test's right operand. */
  lemma {:induction false} WalkFailsIff(pos: nat, keys: seq<int>, n: nat)
    requires pos <= n
    ensures Walk(pos, keys, n).Err? <==> n >= 9 && exists j :: 0 <= j < |keys| && keys[j] >= KeyOne
    ensures Walk(pos, keys, n).Err? ==> Walk(pos, keys, n).fault == TypeError
    decreases |keys|
  {
    if keys != [] {
      match Step(pos, keys[0], n)
      case Err(_) =>
      case Ok(p) =>
        WalkFailsIff(p, keys[1..], n);
        if n >= 9 && exists j :: 0 <= j < |keys| && keys[j] >= KeyOne {
          var j :| 0 <= j < |keys| && keys[j] >= KeyOne;
          assert j != 0;
          assert keys[1..][j - 1] >= KeyOne;
        }
        if exists j :: 0 <= j < |keys[1..]| && keys[1..][j] >= KeyOne {
          var j :| 0 <= j < |keys[1..]| && keys[1..][j] >= KeyOne;
          assert keys[j + 1] >= KeyOne;
        }
    }
  }

  /** Number of occurrences of key c in keys. */
  function Count(keys: seq<int>, c: int): nat
    decreases |keys|
  {
    if keys == [] then 0 else (if keys[0] == c then 1 else 0) + Count(keys[1..], c)
  }

  /** A non-zero multiple of m is at least m away from zero. */
  lemma MultipleBounds(k: int, m: int)
    requires m > 0
    ensures k >= 1 ==> k * m >= m
    ensures k <= -1 ==> k * m <= -m
  {
    if k >= 1 {
      assert k * m == (k - 1) * m + m;
      assert (k - 1) * m >= 0;
    } else if k <= -1 {
      assert k * m == (k + 1) * m - m;
      assert (k + 1) * m <= 0;
    }
  }

  /** x % m is the remainder of any decomposition x == q * m + r with 0 <= r < m. */
  lemma ModUnique(x: int, q: int, r: int, m: int)
    requires m > 0 && 0 <= r < m && x == q * m + r
    ensures x % m == r
  {
    var d := x / m;
    assert x == d * m + x % m;
    assert (d - q) * m == d * m - q * m;
    assert (d - q) * m == r - x % m;
    MultipleBounds(d - q, m);
  }

  lemma ModShift(a: int, b: int, m: int)
    requires m > 0
    ensures (a % m + b) % m == (a + b) % m
  {
    var q := a / m;
    var x := a % m + b;
    var d := x / m;
    assert a == q * m + a % m;
    assert x == d * m + x % m;
    assert (q + d) * m == q * m + d * m;
    assert a + b == (q + d) * m + x % m;
    ModUnique(a + b, q + d, x % m, m);
  }

  /** One arrow press moves the cursor by one around the ring of n + 1 entries. */
  lemma ArrowIsModular(pos: nat, key: int, n: nat)
    requires pos <= n <= 8 && (key == KeyDown || key == KeyUp)
    ensures Step(pos, key, n) == Ok((pos + (if key == KeyDown then 1 else -1)) % (n + 1))
  {
    var m := n + 1;
    if key == KeyDown {
      if pos < n { ModUnique(pos + 1, 0, pos + 1, m); } else { ModUnique(pos + 1, 1, 0, m); }
    } else {
      if pos > 0 { ModUnique(pos - 1, 0, pos - 1, m); } else { ModUnique(pos - 1, -1, n, m); }
    }
  }

  /** Arrow keys alone move the cursor around a ring of n + 1 entries: the
      position is the start plus the downs minus the ups, modulo n + 1. */
  lemma {:induction false} ArrowsAreModular(pos: nat, keys: seq<int>, n: nat)
    requires pos <= n <= 8
    requires forall j :: 0 <= j < |keys| ==> keys[j] == KeyDown || keys[j] == KeyUp
    ensures Walk(pos, keys, n) == Ok((pos + Count(keys, KeyDown) - Count(keys, KeyUp)) % (n + 1))
    decreases |keys|
  {
    var m := n + 1;
    if keys == [] {
      ModUnique(pos, 0, pos, m);
    } else {
      var delta := if keys[0] == KeyDown then 1 else -1;
      ArrowIsModular(pos, keys[0], n);
      var p := Step(pos, keys[0], n).value;
      assert p == (pos + delta) % m;
      var d := Count(keys[1..], KeyDown) - Count(keys[1..], KeyUp);
      ArrowsAreModular(p, keys[1..], n);
      assert Walk(pos, keys, n) == Walk(p, keys[1..], n);
      ModShift(pos + delta, d, m);
      assert pos + Count(keys, KeyDown) - Count(keys, KeyUp) == pos + delta + d;
    }
  }

  /** How the selection loop of one screen ends: Enter confirms the entry
      under the cursor (the keys after it are still unread), a fault
      escapes, or the keys run out while getch is still waiting. */
  datatype RunOutcome =
    | Confirmed(index: nat, rest: seq<int>)
    | Crashed(fault: Fault)
    | Waiting(pos: nat)

  /** The selection loop from cursor pos over the keys still to be read. */
  function RunFrom(pos: nat, keys: seq<int>, n: nat): (r: RunOutcome)
    requires pos <= n
    ensures r.Confirmed? ==> r.index <= n && |r.rest| < |keys|
    ensures r.Crashed? ==> r.fault == TypeError && n >= 9
    ensures r.Waiting? ==> r.pos <= n
    decreases |keys|
  {
    if keys == [] then Waiting(pos)
    else
      match Step(pos, keys[0], n)
      case Err(e) => Crashed(e)
      case Ok(p) => if keys[0] == KeyEnter then Confirmed(p, keys[1..]) else RunFrom(p, keys[1..], n)
  }

  /** With the first Enter at position k, the loop confirms the cursor that
      the keys before it lead to, and leaves the keys after it unread. */
  lemma {:induction false} RunConfirmsAtFirstEnter(pos: nat, keys: seq<int>, k: nat, n: nat)
    requires pos <= n && k < |keys| && keys[k] == KeyEnter
    requires forall j :: 0 <= j < k ==> keys[j] != KeyEnter
    ensures RunFrom(pos, keys, n) ==
            match Walk(pos, keys[..k], n)
            case Ok(p) => Confirmed(p, keys[k + 1..])
            case Err(e) => Crashed(e)
    decreases k
  {
    if k == 0 {
      assert keys[..0] == [];
    } else {
      assert keys[..k][0] == keys[0];
      assert keys[..k][1..] == keys[1..][..k - 1];
      match Step(pos, keys[0], n)
      case Err(_) =>
      case Ok(p) =>
        RunConfirmsAtFirstEnter(p, keys[1..], k - 1, n);
        assert keys[1..][k - 1 + 1..] == keys[k + 1..];
    }
  }

  /** Without an Enter the loop is still waiting, at the cursor the keys
      lead to, or has failed as they do. */
  lemma {:induction false} RunWaitsWithoutEnter(pos: nat, keys: seq<int>, n: nat)
    requires pos <= n
    requires forall j :: 0 <= j < |keys| ==> keys[j] != KeyEnter
    ensures RunFrom(pos, keys, n) ==
            match Walk(pos, keys, n)
            case Ok(p) => Waiting(p)
            case Err(e) => Crashed(e)
    decreases |keys|
  {
    if keys != [] {
      match Step(pos, keys[0], n)
      case Err(_) =>
      case Ok(p) => RunWaitsWithoutEnter(p, keys[1..], n);
    }
  }

  /** In a menu of nine or more options no key can move the cursor: only
      the first option can ever be confirmed. */
  lemma {:induction false} LargeMenuConfirmsOnlyFirst(keys: seq<int>, n: nat)
    requires n >= 9
    ensures RunFrom(0, keys, n) in {Crashed(TypeError), Waiting(0)} ||
            (RunFrom(0, keys, n).Confirmed? && RunFrom(0, keys, n).index == 0)
    decreases |keys|
  {
    if keys != [] && keys[0] < KeyOne && keys[0] != KeyEnter {
      LargeMenuConfirmsOnlyFirst(keys[1..], n);
    }
  }

  /** Menu.run: draws the menu (not modelled), then reads keys from the
      cursor at 0 until Enter and returns the confirmed entry. */
  method Run(menu: MenuNode, keys: seq<int>) returns (out: RunOutcome)
    ensures out == RunFrom(0, keys, |menu.options|)
    ensures out.Confirmed? ==> out.index <= |menu.options|
  {
    var optioncount := |menu.options|;
    var pos := 0;
    var k := 0;
    while k < |keys|
      invariant k <= |keys| && pos <= optioncount
      invariant RunFrom(0, keys, optioncount) == RunFrom(pos, keys[k..], optioncount)
      decreases |keys| - k
    {
      var x := keys[k];
      assert keys[k..][1..] == keys[k + 1..];
      k := k + 1;
      match Step(pos, x, optioncount)
      case Err(e) =>
        return Crashed(e);
      case Ok(p) =>
        pos := p;
        if x == KeyEnter {
          return Confirmed(pos, keys[k..]);
        }
    }
    return Waiting(pos);
  }
}
