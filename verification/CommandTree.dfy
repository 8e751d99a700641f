/**
 The tree of commands, and finding a command by its full name.
 */
module CommandTree {
  import opened CommandNames

  class OvmsCommand {
    const name: string
    var parent: OvmsCommand?
    var children: map<string, OvmsCommand>
    ghost const depth: nat

    constructor (name: string, ghost depth: nat)
      ensures this.name == name && this.depth == depth && parent == null && children == map[]
    {
      this.name, parent, children, this.depth := name, null, map[], depth;
    }
  }

  class OvmsCommandApp {
    const root: OvmsCommand
    ghost var nodes: set<OvmsCommand>

    /** A child is filed under its own name and knows its parent; everything but the
        root is somebody's child. */
    ghost predicate Valid()
      reads this, nodes
    {
      && root in nodes && root.parent == null && root.name == "" && root.depth == 0
      && (forall n, key | n in nodes && key in n.children ::
            n.children[key] in nodes && n.children[key].name == key && n.children[key].parent == n)
      && (forall n | n in nodes && n != root :: HasParent(n))
    }

    ghost predicate HasParent(n: OvmsCommand)
      reads this, nodes, n
    {
      && n.parent != null && n.parent in nodes && n.depth == n.parent.depth + 1
      && n.name in n.parent.children && n.parent.children[n.name] == n
    }

    /** The names from below the root down to a command. */
    ghost function Path(n: OvmsCommand): (path: seq<string>)
      requires Valid() && n in nodes
      reads this, nodes
      decreases n.depth
    {
      if n == root then [] else assert HasParent(n); Path(n.parent) + [n.name]
    }

    /** Where looking up names one after the other leads. */
    ghost function Follow(n: OvmsCommand, names: seq<string>): (r: OvmsCommand?)
      requires Valid() && n in nodes
      reads this, nodes
      ensures r != null ==> r in nodes
      decreases |names|
    {
      if names == [] then n
      else if names[0] in n.children then Follow(n.children[names[0]], names[1..])
      else null
    }

    constructor ()
      ensures Valid() && nodes == {root} && root.children == map[]
    {
      root := new OvmsCommand("", 0);
      nodes := {};
      new;
      nodes := {root};
    }

    lemma {:induction false} FollowFurther(n: OvmsCommand, names: seq<string>, key: string)
      requires Valid() && n in nodes
      ensures var m := Follow(n, names);
        Follow(n, names + [key]) == if m != null && key in m.children then m.children[key] else null
      decreases |names|
    {
      if names != [] {
        assert (names + [key])[1..] == names[1..] + [key];
        if names[0] in n.children { FollowFurther(n.children[names[0]], names[1..], key); }
      }
    }

    /** A command's path leads to it. */
    lemma {:induction false} PathLeads(n: OvmsCommand)
      requires Valid() && n in nodes
      ensures Follow(root, Path(n)) == n
      decreases n.depth
    {
      if n != root {
        assert HasParent(n);
        PathLeads(n.parent);
        FollowFurther(root, Path(n.parent), n.name);
      }
    }

    /** And no other path does. */
    lemma {:induction false} OnlyPathLeads(names: seq<string>)
      requires Valid() && Follow(root, names) != null
      ensures Path(Follow(root, names)) == names
      decreases |names|
    {
      if names != [] {
        var (init, last) := (names[..|names| - 1], names[|names| - 1]);
        assert names == init + [last];
        FollowFurther(root, init, last);
        OnlyPathLeads(init);
        var m := Follow(root, init);
        assert m.children[last].parent == m && m.children[last] != root;
      }
    }

    /** `GetFullName`. */
    method GetFullName(n: OvmsCommand) returns (full: string)
      requires Valid() && n in nodes
      ensures full == Join(Path(n))
      decreases n.depth
    {
      if n.parent == null {
        assert n != root ==> HasParent(n);
        return n.name;
      }
      assert HasParent(n);
      var res := GetFullName(n.parent);
      if res != "" {
        res := res + " ";
      }
      full := res + n.name;
      assert Path(n)[..|Path(n)| - 1] == Path(n.parent);
    }

    /** `FindCommandFullName`, not creating user commands. */
    method FindCommandFullName(name: string) returns (found: OvmsCommand?)
      requires Valid()
      ensures found == Follow(root, Split(name))
    {
      found := root;
      var p := name;
      while p != ""
        invariant found in nodes
        invariant Follow(root, Split(name)) == Follow(found, Split(p))
        decreases |p|
      {
        var d := Space(p);
        if d < |p| {
          var command := p[..d];
          if command !in found.children {
            return null;
          }
          p := p[d + 1..];
          found := found.children[command];
        } else {
          if p !in found.children {
            return null;
          }
          found := found.children[p];
          assert Split(p)[1..] == [];
          return;
        }
      }
    }

    /** Looking up a command's full name finds the command, exactly when the names on
        its path are without spaces and neither the first nor the last is empty. */
    lemma FullNameFindsIff(n: OvmsCommand)
      requires Valid() && n in nodes
      ensures Follow(root, Split(Join(Path(n)))) == n <==> Proper(Path(n))
    {
      var names := Split(Join(Path(n)));
      FullNameIff(Path(n));
      PathLeads(n);
      if Follow(root, names) == n { OnlyPathLeads(names); }
    }

    /** A new command, or the one that already has the name. */
    method RegisterCommand(parent: OvmsCommand, name: string) returns (cmd: OvmsCommand)
      requires Valid() && parent in nodes
      modifies this`nodes, parent`children
      ensures Valid() && name in parent.children && cmd == parent.children[name]
      ensures if old(name in parent.children) then
                cmd == old(parent.children)[name] && parent.children == old(parent.children) && nodes == old(nodes)
              else
                && fresh(cmd) && cmd.children == map[]
                && parent.children == old(parent.children)[name := cmd] && nodes == old(nodes) + {cmd}
    {
      if name in parent.children {
        return parent.children[name];
      }
      cmd := new OvmsCommand(name, parent.depth + 1);
      cmd.parent := parent;
      parent.children := parent.children[name := cmd];
      nodes := nodes + {cmd};
      forall n, key | n in nodes && key in n.children
        ensures n.children[key] in nodes && n.children[key].name == key && n.children[key].parent == n
      {
        if n.children[key] != cmd { assert key in old(n.children) && old(n.children)[key] == n.children[key]; }
      }
      forall n | n in nodes && n != root ensures HasParent(n) {
        if n != cmd { assert old(HasParent(n)); }
      }
    }

    /** Whether a command is `top` or somewhere below it. */
    ghost predicate Under(n: OvmsCommand, top: OvmsCommand)
      requires Valid() && n in nodes
      reads this, nodes
      decreases n.depth
    {
      n == top || (n != root && (assert HasParent(n); Under(n.parent, top)))
    }

    ghost function Subtree(top: OvmsCommand): set<OvmsCommand>
      requires Valid()
      reads this, nodes
    {
      set n | n in nodes && Under(n, top)
    }

    /** Removes a child and everything below it, and nothing else. */
    method UnregisterCommand(parent: OvmsCommand, name: string) returns (found: bool)
      requires Valid() && parent in nodes
      modifies this`nodes, parent`children
      ensures Valid() && found == old(name in parent.children)
      ensures parent.children == old(parent.children) - {name}
      ensures nodes == if found then old(nodes) - old(Subtree(parent.children[name])) else old(nodes)
    {
      if name !in parent.children {
        return false;
      }
      var cmd := parent.children[name];
      ghost var gone := Subtree(cmd);
      assert !Under(parent, cmd) by { NotUnder(parent, cmd); }
      assert !Under(root, cmd);
      parent.children := parent.children - {name};
      nodes := nodes - gone;
      forall n, key | n in nodes && key in n.children
        ensures n.children[key] in nodes && n.children[key].name == key && n.children[key].parent == n
      {
        var c := n.children[key];
        assert key in old(n.children) && old(HasParent(c));
        assert c != cmd && old(Under(c, cmd) == Under(n, cmd));
      }
      forall n | n in nodes && n != root ensures HasParent(n) {
        assert old(HasParent(n)) && !old(Under(n, cmd));
        assert !old(Under(n.parent, cmd));
      }
      found := true;
    }

    /** Without a name: the command removes itself through its parent. */
    method UnregisterSelf(cmd: OvmsCommand) returns (found: bool)
      requires Valid() && cmd in nodes && cmd != root
      modifies this`nodes, cmd.parent`children
      ensures Valid() && found
      ensures old(cmd.parent).children == old(cmd.parent.children) - {cmd.name}
      ensures nodes == old(nodes) - old(Subtree(cmd))
    {
      assert HasParent(cmd);
      found := UnregisterCommand(cmd.parent, cmd.name);
    }

    /** What is above a command is not below it. */
    lemma {:induction false} NotUnder(n: OvmsCommand, top: OvmsCommand)
      requires Valid() && n in nodes && top in nodes && n.depth < top.depth
      ensures !Under(n, top)
      decreases n.depth
    {
      if n != root {
        assert HasParent(n);
        NotUnder(n.parent, top);
      }
    }
  }
}
