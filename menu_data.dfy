/** The menu definitions the navigator walks, the faults it can raise, and
    the label of the synthetic last entry of every menu screen. */
module MenuData {

  /** One selectable line of a menu. The source tells the kinds apart by the
      option's 'type' string: "function", "menu", "exitmenu"; any other
      value is kept as Unknown, which the dispatch loop ignores. */
  datatype MenuOption =
    | Function(title: string, fname: string)
    | Submenu(menu: MenuNode)
    | ExitMenu(title: string)
    | Unknown(title: string)

  /** One menu screen. Its options are numbered from 0; index |options| is
      the synthetic "Exit" / "Return to ... menu" entry. */
  datatype MenuNode = MenuNode(title: string, subtitle: string, options: seq<MenuOption>)

  /** The Python exceptions the navigation code can raise. */
  datatype Fault =
    | TypeError             // ord() applied to a string of two or more characters
    | KeyError(key: string) // a callback name missing from the registry
    | IndexError(index: nat) // an option index past the synthetic entry

  datatype Result<T> = Ok(value: T) | Err(fault: Fault)

  datatype Option<T> = None | Some(value: T)

  const ReturnPrefix: string := "Return to "
  const ReturnSuffix: string := " menu"

  /** The text of the synthetic last entry: "Exit" at the root, otherwise
      "Return to <parent title> menu". */
  function LastOptionLabel(parent: Option<MenuNode>): (text: string)
    ensures text == "Exit" <==> parent.None?
  {
    match parent
    case None => "Exit"
    case Some(p) =>
      var l := ReturnPrefix + p.title + ReturnSuffix;
      assert |l| >= 15;
      l
  }

  /** Reads back the parent title a last-entry label names, if any. */
  function ParentTitle(text: string): Option<string>
  {
    var n := |text|;
    if n >= |ReturnPrefix| + |ReturnSuffix|
       && text[..|ReturnPrefix|] == ReturnPrefix
       && text[n - |ReturnSuffix|..] == ReturnSuffix
    then Some(text[|ReturnPrefix|..n - |ReturnSuffix|])
    else None
  }

  /** The label determines the parent's title: reading it back gives the
      title of the menu one level up, and nothing at the root. */
  lemma LabelNamesParent(parent: Option<MenuNode>)
    ensures ParentTitle(LastOptionLabel(parent)) ==
            match parent
            case None => None
            case Some(p) => Some(p.title)
  {
    match parent
    case None =>
    case Some(p) =>
      var l := LastOptionLabel(parent);
      var n := |l|;
      assert l == ReturnPrefix + p.title + ReturnSuffix;
      assert l[..|ReturnPrefix|] == ReturnPrefix;
      assert l[n - |ReturnSuffix|..] == ReturnSuffix;
      assert l[|ReturnPrefix|..n - |ReturnSuffix|] == p.title;
  }
}
