/** One directory of hard links: names, the inodes behind them, and the three calls that change them. */
module NameSpace {
  import opened Bytes

  datatype File = File(content: seq<byte>, uid: nat, mode: nat, links: nat)

  datatype Directory = Directory(names: map<string, nat>, inodes: map<nat, File>)

  ghost function NamesOf(dir: Directory, ino: nat): set<string> {
    set name | name in dir.names && dir.names[name] == ino
  }

  /** Every name has its inode, and a link count covers at least the names seen here. */
  ghost predicate WellFormed(dir: Directory) {
    && (forall name :: name in dir.names ==> dir.names[name] in dir.inodes && dir.inodes[dir.names[name]].links > 0)
    && (forall ino :: ino in dir.inodes ==> |NamesOf(dir, ino)| <= dir.inodes[ino].links)
  }

  function FileAt(dir: Directory, name: string): File
    requires WellFormed(dir) && name in dir.names
  {
    dir.inodes[dir.names[name]]
  }

  function Create(dir: Directory, name: string, ino: nat, uid: nat, mode: nat): Directory {
    Directory(dir.names[name := ino], dir.inodes[ino := File([], uid, mode, 1)])
  }

  function Link(dir: Directory, from: string, to: string): Directory
    requires WellFormed(dir) && from in dir.names
  {
    var ino := dir.names[from];
    Directory(dir.names[to := ino], dir.inodes[ino := dir.inodes[ino].(links := dir.inodes[ino].links + 1)])
  }

  /** The inode goes with its last name. */
  function Unlink(dir: Directory, name: string): Directory
    requires WellFormed(dir) && name in dir.names
  {
    var ino := dir.names[name];
    var file := dir.inodes[ino];
    Directory(dir.names - {name},
              if file.links == 1 then dir.inodes - {ino} else dir.inodes[ino := file.(links := file.links - 1)])
  }

  // ---------------------------------------------------------------- the calls keep a directory well formed

  lemma {:induction false} SubsetSize(small: set<string>, large: set<string>)
    requires small <= large
    ensures |small| <= |large|
  {
    if x :| x in small {
      SubsetSize(small - {x}, large - {x});
    }
  }

  /** Two names of one inode are two links. */
  lemma SharedInode(dir: Directory, left: string, right: string)
    requires WellFormed(dir) && left in dir.names && right in dir.names && left != right
    requires dir.names[left] == dir.names[right]
    ensures FileAt(dir, left).links >= 2
  {
    SubsetSize({left, right}, NamesOf(dir, dir.names[left]));
  }

  lemma CreateWellFormed(dir: Directory, name: string, ino: nat, file: File)
    requires WellFormed(dir) && name !in dir.names && ino !in dir.inodes && file.links > 0
    ensures WellFormed(Directory(dir.names[name := ino], dir.inodes[ino := file]))
  {
    var after := Directory(dir.names[name := ino], dir.inodes[ino := file]);
    forall i | i in after.inodes
      ensures |NamesOf(after, i)| <= after.inodes[i].links
    {
      if i == ino {
        assert NamesOf(after, i) == {name};
      } else {
        assert NamesOf(after, i) == NamesOf(dir, i);
      }
    }
  }

  lemma LinkWellFormed(dir: Directory, from: string, to: string)
    requires WellFormed(dir) && from in dir.names && to !in dir.names
    ensures WellFormed(Link(dir, from, to))
  {
    var after, ino := Link(dir, from, to), dir.names[from];
    forall i | i in after.inodes
      ensures |NamesOf(after, i)| <= after.inodes[i].links
    {
      assert NamesOf(after, i) == if i == ino then NamesOf(dir, i) + {to} else NamesOf(dir, i);
    }
  }

  lemma UnlinkWellFormed(dir: Directory, name: string)
    requires WellFormed(dir) && name in dir.names
    ensures WellFormed(Unlink(dir, name))
  {
    var after, ino := Unlink(dir, name), dir.names[name];
    forall other | other in after.names
      ensures after.names[other] in after.inodes && after.inodes[after.names[other]].links > 0
    {
      if after.names[other] == ino {
        SharedInode(dir, name, other);
      }
    }
    forall i | i in after.inodes
      ensures |NamesOf(after, i)| <= after.inodes[i].links
    {
      assert NamesOf(after, i) == NamesOf(dir, i) - {name};
      assert i == ino ==> name in NamesOf(dir, i);
      SubsetSize(NamesOf(after, i), NamesOf(dir, i));
    }
  }
}
