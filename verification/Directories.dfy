/** A cached directory as the client keeps it: a record whose fields are assigned in place. */
module Directories {
  import opened Bytes
  import opened Cache

  class Directory {
    var name: Name
    var attributes: Option<Attributes>
    var children: Option<seq<Name>>

    ghost function Value(): CacheItem
      reads this
    {
      DirectoryItem(name, attributes, children)
    }

    constructor (name: Name, attributes: Option<Attributes>, children: Option<seq<Name>>)
      ensures Value() == DirectoryItem(name, attributes, children)
    {
      this.name, this.attributes, this.children := name, attributes, children;
    }

    /** What the other directory knows replaces what this one knew; the name stays. */
    method Merge(other: Directory)
      modifies this
      ensures forall lim, order :: Value() == UpdateItem(lim, old(Value()), old(other.Value()), order)
    {
      if other.attributes.Some? {
        attributes := other.attributes;
      }
      if other.children.Some? {
        children := other.children;
      }
    }

    method Rename(name: Name)
      modifies this
      ensures Value() == old(Value()).(name := name)
    {
      this.name := name;
    }

    method InvalidateAttributes()
      modifies this
      ensures Value() == old(Value()).(attributes := None)
    {
      attributes := None;
    }
  }
}
