/**
 * The Electron main menu built from the menu model
 * (src/application/electron-browser/menu/menu-plugin.ts).
 *
 * The menu model is a tree of nodes; a command is represented by what its
 * optional `isEnabled` and `isVisible` callbacks return (`None` when the
 * command does not define the callback). A menu item's `click` callback is
 * represented by the id of the command it executes. The template is the
 * list of item options handed to Electron; building the native menu from
 * it is not part of this model.
 */
module MenuPlugin {
  import opened Wrappers

  /** A node of the menu model. */
  datatype MenuNode =
    | Composite(labelText: Option<string>, subMenus: seq<MenuNode>)
    | ActionNode(actionLabel: string, icon: Option<string>, commandId: string)
      /** Any other kind of node: `fillMenuTemplate` skips it. */
    | OtherNode

  /** A command as the factory sees it: the results of its optional callbacks. */
  datatype Command = Command(isEnabled: Option<bool>, isVisible: Option<bool>)

  /** An Electron menu item option. */
  datatype MenuItem =
    | Submenu(submenuLabel: Option<string>, submenuRole: Option<string>, submenu: seq<MenuItem>)
    | Separator
    | RoleItem(role: string)
    | ActionItem(itemLabel: string, icon: Option<string>, enabled: bool, visible: bool, commandId: string)

  /** A composite node makes a submenu when its label is truthy (defined and not `''`). */
  predicate Labelled(text: Option<string>) {
    text.Some? && text.value != ""
  }

  function UnknownCommand(commandId: string): string {
    "Unknown command id: " + commandId + "."
  }

  /** `isOSX`: the platform is defined and is `darwin`. */
  predicate IsOSX(platform: Option<string>) {
    platform == Some("darwin")
  }

  /** `createOSXMenu`: the application menu with the standard roles. */
  function OSXMenu(): MenuItem {
    Submenu(Some("Theia"), None, [
      RoleItem("about"), Separator,
      Submenu(None, Some("services"), []), Separator,
      RoleItem("hide"), RoleItem("hideothers"), RoleItem("unhide"), Separator,
      RoleItem("quit")])
  }

  /**
   * The `enabled` flag of an action item: `true` unless `isEnabled` says
   * otherwise, and then overwritten by `isVisible` when that is defined.
   */
  function Enabled(command: Command): bool {
    if command.isVisible.Some? then command.isVisible.value
    else if command.isEnabled.Some? then command.isEnabled.value
    else true
  }

  /** The flags of an action item: `isVisible` decides `enabled` whenever it is defined, and `visible` is always true. */
  lemma EnabledCases(command: Command)
    ensures command.isVisible.Some? ==> Enabled(command) == command.isVisible.value
    ensures command.isVisible.None? && command.isEnabled.Some? ==> Enabled(command) == command.isEnabled.value
    ensures command.isVisible.None? && command.isEnabled.None? ==> Enabled(command)
  {
  }

  /** Two results laid end to end; the first failure wins. */
  function Combine(head: Result<seq<MenuItem>>, tail: Result<seq<MenuItem>>): Result<seq<MenuItem>> {
    if head.Failure? then head
    else if tail.Failure? then tail
    else Success(head.value + tail.value)
  }

  /** What ends up in the accumulator `items` when the items `r` are pushed onto it. */
  function Extend(items: seq<MenuItem>, r: Result<seq<MenuItem>>): Result<seq<MenuItem>> {
    if r.Failure? then Failure(r.error) else Success(items + r.value)
  }

  /**
   * The reference definition: the items a node contributes, independent of
   * any accumulator. A labelled composite gives one submenu, an unlabelled
   * one a separator followed by its own items, an action one item, and an
   * action with an unknown command the error.
   */
  function Contribution(node: MenuNode, commands: map<string, Command>): Result<seq<MenuItem>>
    decreases node, 1
  {
    match node
    case Composite(labelText, subMenus) =>
      var sub := Flatten(subMenus, commands);
      if sub.Failure? then sub
      else if Labelled(labelText) then Success([Submenu(None, None, sub.value)])
      else Success([Separator] + sub.value)
    case ActionNode(labelText, icon, commandId) =>
      if commandId !in commands then Failure(UnknownCommand(commandId))
      else Success([ActionItem(labelText, icon, Enabled(commands[commandId]), true, commandId)])
    case OtherNode => Success([])
  }

  /** The items of a list of nodes: their contributions in node order. */
  function Flatten(nodes: seq<MenuNode>, commands: map<string, Command>): Result<seq<MenuItem>>
    decreases nodes, 0
  {
    if nodes == [] then Success([])
    else Combine(Contribution(nodes[0], commands), Flatten(nodes[1..], commands))
  }

  /** Every action node, at any depth, names a known command. */
  predicate NodeKnown(node: MenuNode, commands: map<string, Command>)
    decreases node, 1
  {
    match node
    case Composite(_, subMenus) => AllKnown(subMenus, commands)
    case ActionNode(_, _, commandId) => commandId in commands
    case OtherNode => true
  }

  predicate AllKnown(nodes: seq<MenuNode>, commands: map<string, Command>)
    decreases nodes, 0
  {
    nodes == [] || (NodeKnown(nodes[0], commands) && AllKnown(nodes[1..], commands))
  }

  /**
   * A node's items can be built exactly when every action below it names a
   * known command; otherwise the error names an unknown command.
   */
  lemma {:induction false} ContributionSucceedsIff(node: MenuNode, commands: map<string, Command>)
    ensures Contribution(node, commands).Success? <==> NodeKnown(node, commands)
    ensures Contribution(node, commands).Failure? ==>
              exists commandId :: commandId !in commands && Contribution(node, commands).error == UnknownCommand(commandId)
    decreases node, 1
  {
    match node
    case Composite(_, subMenus) =>
      FlattenSucceedsIff(subMenus, commands);
    case ActionNode(_, _, commandId) =>
    case OtherNode =>
  }

  /**
   * `fillMenuTemplate` succeeds exactly when every action node in the tree
   * names a known command; otherwise it fails with the "Unknown command id"
   * error for one of them.
   */
  lemma {:induction false} FlattenSucceedsIff(nodes: seq<MenuNode>, commands: map<string, Command>)
    ensures Flatten(nodes, commands).Success? <==> AllKnown(nodes, commands)
    ensures Flatten(nodes, commands).Failure? ==>
              exists commandId :: commandId !in commands && Flatten(nodes, commands).error == UnknownCommand(commandId)
    decreases nodes, 0
  {
    if nodes != [] {
      ContributionSucceedsIff(nodes[0], commands);
      FlattenSucceedsIff(nodes[1..], commands);
    }
  }

  /** The items of two lists of nodes are the items of the first followed by those of the second. */
  lemma {:induction false} FlattenAppend(a: seq<MenuNode>, b: seq<MenuNode>, commands: map<string, Command>)
    ensures Flatten(a + b, commands) == Combine(Flatten(a, commands), Flatten(b, commands))
    decreases |a|
  {
    if a == [] {
      assert a + b == b;
      if Flatten(b, commands).Success? {
        assert [] + Flatten(b, commands).value == Flatten(b, commands).value;
      }
    } else {
      assert (a + b)[0] == a[0];
      assert (a + b)[1..] == a[1..] + b;
      FlattenAppend(a[1..], b, commands);
      var h := Contribution(a[0], commands);
      var fa := Flatten(a[1..], commands);
      var fb := Flatten(b, commands);
      if h.Success? && fa.Success? && fb.Success? {
        assert h.value + (fa.value + fb.value) == (h.value + fa.value) + fb.value;
      }
    }
  }

  /** Pushing the items of two results is pushing the first's, then the second's. */
  lemma ExtendCombine(items: seq<MenuItem>, head: Result<seq<MenuItem>>, tail: Result<seq<MenuItem>>)
    ensures head.Failure? ==> Extend(items, Combine(head, tail)) == Failure(head.error)
    ensures head.Success? ==> Extend(items, Combine(head, tail)) == Extend(items + head.value, tail)
  {
    if head.Success? && tail.Success? {
      assert items + (head.value + tail.value) == (items + head.value) + tail.value;
    }
  }

  /**
   * Without a label, a composite's children are inlined: the template gets
   * a separator and then exactly the children's items, at the same level.
   */
  lemma UnlabelledInlines(labelText: Option<string>, subMenus: seq<MenuNode>, rest: seq<MenuNode>, commands: map<string, Command>)
    requires !Labelled(labelText)
    requires Flatten([Composite(labelText, subMenus)] + rest, commands).Success?
    ensures Flatten(subMenus, commands).Success? && Flatten(rest, commands).Success?
    ensures Flatten([Composite(labelText, subMenus)] + rest, commands).value
            == [Separator] + Flatten(subMenus, commands).value + Flatten(rest, commands).value
  {
    var nodes := [Composite(labelText, subMenus)] + rest;
    assert nodes[0] == Composite(labelText, subMenus) && nodes[1..] == rest;
  }

  /**
   * With a label, a composite contributes one submenu item, holding its
   * children's items built on their own.
   */
  lemma LabelledIsOneItem(labelText: Option<string>, subMenus: seq<MenuNode>, rest: seq<MenuNode>, commands: map<string, Command>)
    requires Labelled(labelText)
    requires Flatten([Composite(labelText, subMenus)] + rest, commands).Success?
    ensures Flatten(subMenus, commands).Success? && Flatten(rest, commands).Success?
    ensures Flatten([Composite(labelText, subMenus)] + rest, commands).value
            == [Submenu(None, None, Flatten(subMenus, commands).value)] + Flatten(rest, commands).value
  {
    var nodes := [Composite(labelText, subMenus)] + rest;
    assert nodes[0] == Composite(labelText, subMenus) && nodes[1..] == rest;
  }

  class MainMenuFactory {
    /** The command registry's commands by id. */
    const commands: map<string, Command>
    /** `process.platform`, `None` when `process` or its platform is undefined. */
    const platform: Option<string>

    constructor (commands: map<string, Command>, platform: Option<string>)
      ensures this.commands == commands && this.platform == platform
    {
      this.commands := commands;
      this.platform := platform;
    }

    /**
     * `fillMenuTemplate`: push the items of the composite's children onto
     * `items`, recursing with a fresh list for a labelled composite and with
     * the same list for an unlabelled one.
     */
    method FillMenuTemplate(items: seq<MenuItem>, menuModel: MenuNode) returns (r: Result<seq<MenuItem>>)
      requires menuModel.Composite?
      ensures r == Extend(items, Flatten(menuModel.subMenus, commands))
      decreases menuModel
    {
      var acc := items;
      var subMenus := menuModel.subMenus;
      for i := 0 to |subMenus|
        invariant Extend(items, Flatten(subMenus, commands)) == Extend(acc, Flatten(subMenus[i..], commands))
      {
        var menu := subMenus[i];
        assert subMenus[i..][0] == menu && subMenus[i..][1..] == subMenus[i + 1..];
        var rest := Flatten(subMenus[i + 1..], commands);
        assert Flatten(subMenus[i..], commands) == Combine(Contribution(menu, commands), rest);
        ExtendCombine(acc, Contribution(menu, commands), rest);
        match menu {
          case Composite(labelText, children) =>
            if Labelled(labelText) {
              var sub := FillMenuTemplate([], menu);
              if sub.Failure? {
                return Failure(sub.error);
              }
              assert [] + Flatten(children, commands).value == Flatten(children, commands).value;
              acc := acc + [Submenu(None, None, sub.value)];
            } else {
              ghost var old_acc := acc;
              acc := acc + [Separator];
              var inlined := FillMenuTemplate(acc, menu);
              if inlined.Failure? {
                return Failure(inlined.error);
              }
              assert acc + Flatten(children, commands).value == old_acc + ([Separator] + Flatten(children, commands).value);
              acc := inlined.value;
            }
          case ActionNode(labelText, icon, commandId) =>
            if commandId !in commands {
              return Failure(UnknownCommand(commandId));
            }
            var command := commands[commandId];
            var enabled := true;
            if command.isEnabled.Some? {
              enabled := command.isEnabled.value;
            }
            var visible := true;
            if command.isVisible.Some? {
              enabled := command.isVisible.value;
            }
            acc := acc + [ActionItem(labelText, icon, enabled, visible, commandId)];
            assert Contribution(menu, commands).value == [ActionItem(labelText, icon, enabled, visible, commandId)];
          case OtherNode =>
            assert acc + [] == acc;
        }
      }
      assert subMenus[|subMenus|..] == [];
      assert acc + [] == acc;
      return Success(acc);
    }

    /** `createMenuBar`: fill the template from the main menu, then prepend the application menu on macOS. */
    method CreateMenuBar(mainMenu: MenuNode) returns (r: Result<seq<MenuItem>>)
      requires mainMenu.Composite?
      ensures !IsOSX(platform) ==> r == Flatten(mainMenu.subMenus, commands)
      ensures IsOSX(platform) ==> r == Extend([OSXMenu()], Flatten(mainMenu.subMenus, commands))
    {
      var template := FillMenuTemplate([], mainMenu);
      if template.Success? {
        assert [] + Flatten(mainMenu.subMenus, commands).value == Flatten(mainMenu.subMenus, commands).value;
      }
      if template.Success? && platform == Some("darwin") {
        template := Success([OSXMenu()] + template.value);
      }
      return template;
    }
  }
}
