/** The in-memory instance table: slices updated in place behind a map. */
module Discovery {
  import opened Sequences
  import opened Domain
  import opened InstanceLists

  /** A Go slice: the first len entries of a buffer. */
  datatype Slice = Slice(buf: array<ToolInstance>, len: nat)

  class InMemory {
    var instances: map<string, Slice>

    /** The lists the slices hold, and the buffers that may hold them. */
    ghost var contents: Table
    ghost var buffers: set<array<ToolInstance>>

    /** Lengths fit their buffers, no two lists share one, and contents is what they hold. */
    ghost predicate Valid()
      reads this, buffers
    {
      && instances.Keys == contents.Keys
      && (forall id :: id in instances ==> instances[id].buf in buffers)
      && (forall id :: id in instances ==> instances[id].len <= instances[id].buf.Length)
      && (forall id :: id in instances ==> contents[id] == instances[id].buf[..instances[id].len])
      && (forall i, j :: i in instances && j in instances && i != j ==> instances[i].buf != instances[j].buf)
    }

    constructor ()
      ensures Valid() && contents == map[] && buffers == {}
    {
      instances, contents, buffers := map[], map[], {};
    }

    /** Overwrites the entry with inst's endpoint in place, or appends inst. */
    method RegisterInstance(id: string, inst: ToolInstance)
      requires Valid()
      modifies this, buffers
      ensures Valid() && fresh(buffers - old(buffers))
      ensures contents == Apply(old(contents), Put(id, inst))
    {
      ghost var before := ListOf(contents, id);
      UpsertAt(before, inst);
      if id in instances {
        var list := instances[id];
        var i := 0;
        while i < list.len
          invariant i <= list.len
          invariant forall k :: 0 <= k < i ==> list.buf[k].endpoint != inst.endpoint
        {
          if list.buf[i].endpoint == inst.endpoint {
            assert Position(before, inst.endpoint) == i;
            Overwrite(id, i, inst);
            return;
          }
          i := i + 1;
        }
        assert Position(before, inst.endpoint) == |before|;
      }
      Append(id, inst);
    }

    /** Changes one entry of a list in the list's own buffer, where no other list sees it. */
    method Overwrite(id: string, i: nat, inst: ToolInstance)
      requires Valid() && id in instances && i < instances[id].len
      modifies this`contents, instances[id].buf
      ensures Valid() && contents == old(contents)[id := old(contents)[id][i := inst]]
    {
      var list := instances[id];
      list.buf[i] := inst;
      contents := contents[id := contents[id][i := inst]];
      assert list.buf[..list.len] == contents[id];
    }

    /** Adds an entry at the end. Whether the list stays in its buffer or moves to a larger one shows nowhere. */
    method Append(id: string, inst: ToolInstance)
      requires Valid()
      modifies this, buffers
      ensures Valid() && fresh(buffers - old(buffers))
      ensures contents == old(contents)[id := ListOf(old(contents), id) + [inst]]
    {
      var list: Slice;
      if id in instances {
        list := instances[id];
      } else {
        var none := new ToolInstance[0];
        list := Slice(none, 0);
      }
      var n := list.len;
      var buf := WithRoom(list);
      buf[n] := inst;
      assert buf[..n + 1] == buf[..n] + [inst];
      Install(id, Slice(buf, n + 1));
    }

    /** The slice's own buffer while it has room for one more entry, or a larger copy. */
    static method WithRoom(list: Slice) returns (buf: array<ToolInstance>)
      requires list.len <= list.buf.Length
      ensures buf == list.buf || fresh(buf)
      ensures list.len < buf.Length && buf[..list.len] == list.buf[..list.len]
    {
      buf := list.buf;
      if list.len == buf.Length {
        var capacity: nat :| capacity > list.len;
        buf := new ToolInstance[capacity];
        forall k | 0 <= k < list.len {
          buf[k] := list.buf[k];
        }
      }
    }

    /** Makes s the list of id. Its buffer belongs to no other list, so lists never share entries. */
    method Install(id: string, s: Slice)
      requires Valid() && s.len <= s.buf.Length
      requires forall i :: i in instances && i != id ==> instances[i].buf != s.buf
      modifies this
      ensures Valid() && buffers == old(buffers) + {s.buf}
      ensures contents == old(contents)[id := s.buf[..s.len]]
    {
      instances := instances[id := s];
      contents := contents[id := s.buf[..s.len]];
      buffers := buffers + {s.buf};
    }

    /** Rebuilds the list of id in a new buffer without the entries of the endpoint. */
    method DeregisterInstance(id: string, endpoint: string)
      requires Valid()
      modifies this
      ensures Valid() && fresh(buffers - old(buffers))
      ensures contents == Apply(old(contents), Remove(id, endpoint))
    {
      var s: Slice;
      if id in instances {
        s := Rebuild(instances[id], endpoint);
      } else {
        var none := new ToolInstance[0];
        s := Slice(none, 0);
      }
      Install(id, s);
    }

    static method Rebuild(list: Slice, endpoint: string) returns (s: Slice)
      requires list.len <= list.buf.Length
      ensures fresh(s.buf) && s.len <= s.buf.Length
      ensures s.buf[..s.len] == Without(list.buf[..list.len], endpoint)
    {
      ghost var before := list.buf[..list.len];
      var out := new ToolInstance[list.len];
      var n := 0;
      for i := 0 to list.len
        invariant n <= i && out[..n] == Without(before[..i], endpoint)
      {
        FilterSnoc(before[..i], before[i], OtherThan(endpoint));
        assert before[..i + 1] == before[..i] + [before[i]];
        if list.buf[i].endpoint != endpoint {
          out[n] := list.buf[i];
          n := n + 1;
          assert out[..n] == out[..n - 1] + [list.buf[i]];
        }
      }
      assert before[..list.len] == before;
      s := Slice(out, n);
    }

    /** A copy of the list in a buffer of its own. */
    method Instances(id: string) returns (out: array<ToolInstance>)
      requires Valid()
      ensures fresh(out) && out[..] == ListOf(contents, id)
    {
      if id in instances {
        var list := instances[id];
        out := new ToolInstance[list.len];
        forall k | 0 <= k < list.len {
          out[k] := list.buf[k];
        }
      } else {
        out := new ToolInstance[0];
      }
    }

    method Update(u: Update)
      requires Valid()
      modifies this, buffers
      ensures Valid() && fresh(buffers - old(buffers))
      ensures contents == Apply(old(contents), u)
    {
      match u
      case Put(id, inst) => RegisterInstance(id, inst);
      case Remove(id, endpoint) => DeregisterInstance(id, endpoint);
    }
  }

  /** A list handed out by Instances is untouched by any run of updates that follows. */
  method CopySurvivesUpdates(t: InMemory, id: string, us: seq<Update>) returns (out: array<ToolInstance>)
    requires t.Valid()
    modifies t, t.buffers
    ensures t.Valid() && t.contents == RunFrom(old(t.contents), us)
    ensures fresh(out) && out[..] == ListOf(old(t.contents), id)
  {
    out := t.Instances(id);
    for i := 0 to |us|
      invariant t.Valid() && fresh(t.buffers - old(t.buffers)) && out !in t.buffers
      invariant t.contents == RunFrom(old(t.contents), us[..i])
      invariant out[..] == ListOf(old(t.contents), id)
    {
      assert us[..i + 1][..i] == us[..i];
      t.Update(us[i]);
    }
    assert us[..|us|] == us;
  }
}
