/** The scoreboard objectives a client has been told of (ScoreboardManager.h, ScoreboardManager.cpp). */
module Scoreboard {
  import opened Results
  import opened Wire
  import opened Buffers

  type name = seq<byte>

  // ---------- the client ----------

  /** A Scoreboard Objective packet: mode 0 creates, mode 1 removes, anything else updates; `rest` is how to show it. */
  datatype Objective = Objective(packetId: nat, obj: name, mode: byte, rest: seq<byte>)
  {
    /** The bytes behind the packet id. */
    function Body(): seq<byte> {
      EncodeString(obj) + ([mode] + rest)
    }
  }

  /** The id under which a client of a version knows the packet (ServerPacketHandler.cpp:149). */
  function ObjectiveId(version: int): nat {
    if version > 47 then 0x3F else 0x3B
  }

  /** The objectives of a client after a packet; one with another id means something else to it. */
  function Shown(version: int, client: set<name>, p: Objective): set<name> {
    if p.packetId != ObjectiveId(version) then client
    else if p.mode == 0 then client + {p.obj}
    else if p.mode == 1 then client - {p.obj}
    else client
  }

  function ShownAll(version: int, client: set<name>, ps: seq<Objective>): set<name> {
    if ps == [] then client else Shown(version, ShownAll(version, client, ps[..|ps| - 1]), ps[|ps| - 1])
  }

  // ---------- the proxy's list ----------

  function Without(objects: seq<name>, obj: name): seq<name> {
    if objects == [] then []
    else
      var (init, last) := (objects[..|objects| - 1], objects[|objects| - 1]);
      Without(init, obj) + if last == obj then [] else [last]
  }

  function Members(objects: seq<name>): set<name> {
    set o | o in objects
  }

  lemma {:induction false} WithoutMembers(objects: seq<name>, obj: name)
    ensures Members(Without(objects, obj)) == Members(objects) - {obj}
    ensures forall o | o in Without(objects, obj) :: o in objects
    ensures obj !in objects ==> Without(objects, obj) == objects
  {
    if objects != [] {
      var init, last := objects[..|objects| - 1], objects[|objects| - 1];
      WithoutMembers(init, obj);
      assert objects == init + [last];
      assert Without(objects, obj) == Without(init, obj) + if last == obj then [] else [last];
      hide Without;
      forall o ensures o in Without(objects, obj) <==> o in objects && o != obj {
        assert o in Without(init, obj) <==> o in Members(Without(init, obj));
        assert o in init <==> o in Members(init);
      }
    }
  }

  lemma {:induction false} WithoutConcat(a: seq<name>, b: seq<name>, obj: name)
    ensures Without(a + b, obj) == Without(a, obj) + Without(b, obj)
  {
    if b == [] {
      assert a + b == a;
    } else {
      assert (a + b)[..|a + b| - 1] == a + b[..|b| - 1];
      WithoutConcat(a, b[..|b| - 1], obj);
    }
  }

  /** Erasing the first occurrence of a name, as std::find and erase do it. */
  lemma EraseKeepsOthers(objects: seq<name>, at: nat)
    requires at < |objects|
    ensures var after := objects[..at] + objects[at + 1..];
            && Without(after, objects[at]) == Without(objects, objects[at])
            && multiset(after) == multiset(objects) - multiset{objects[at]}
  {
    hide Without;
    assert objects == objects[..at] + [objects[at]] + objects[at + 1..];
    WithoutMiddle(objects[..at], objects[at], objects[at + 1..]);
  }

  lemma WithoutMiddle(a: seq<name>, obj: name, b: seq<name>)
    ensures Without(a + [obj] + b, obj) == Without(a + b, obj)
    ensures multiset(a + b) == multiset(a + [obj] + b) - multiset{obj}
  {
    WithoutConcat(a + [obj], b, obj);
    WithoutConcat(a, [obj], obj);
    WithoutConcat(a, b, obj);
    WithoutItself(obj);
    hide Without;
    assert Without(a, obj) + [] == Without(a, obj);
  }

  lemma WithoutItself(obj: name)
    ensures Without([obj], obj) == []
  {
    var nothing: seq<name> := [];
    assert [obj][..0] == nothing;
  }

  class ScoreboardManager {
    const version: int
    var objects: seq<name>

    /** The names come from `readString`, which cuts them at the first zero byte. */
    ghost predicate Valid()
      reads this
    {
      forall o | o in objects :: 0 !in o
    }

    constructor (version: int)
      ensures Valid() && this.version == version && objects == []
    {
      this.version := version;
      objects := [];
    }

    /** `removeObjective`: collects the matches of strcmp, then erases them one by one. */
    method RemoveObjective(obj: name)
      requires Valid() && 0 !in obj
      modifies this
      ensures Valid() && objects == Without(old(objects), obj)
    {
      var temp: seq<name> := [];
      var i := 0;
      while i < |objects|
        invariant 0 <= i <= |objects| && objects == old(objects)
        invariant forall t | t in temp :: t == obj
        invariant |temp| == multiset(objects[..i])[obj]
      {
        assert objects[..i + 1] == objects[..i] + [objects[i]];
        assert objects[i] in objects;
        if CString(objects[i]) == CString(obj) {
          temp := temp + [objects[i]];
        }
        i := i + 1;
      }
      assert objects[..i] == objects;
      i := 0;
      while i < |temp|
        invariant 0 <= i <= |temp|
        invariant Without(objects, obj) == Without(old(objects), obj)
        invariant multiset(objects)[obj] == |temp| - i
      {
        hide Without;
        assert temp[i] in temp;
        assert obj in multiset(objects);
        var at := Find(temp[i]);
        EraseKeepsOthers(objects, at);
        objects := objects[..at] + objects[at + 1..];
        i := i + 1;
      }
      assert obj !in multiset(objects);
      WithoutMembers(objects, obj);
      WithoutMembers(old(objects), obj);
    }

    /** std::find. */
    method Find(obj: name) returns (at: nat)
      requires obj in objects
      ensures at < |objects| && objects[at] == obj && obj !in objects[..at]
    {
      at := 0;
      assert objects[0..] == objects;
      while objects[at] != obj
        invariant at < |objects| && obj !in objects[..at] && obj in objects[at..]
        decreases |objects| - at
      {
        assert objects[..at + 1] == objects[..at] + [objects[at]];
        assert objects[at..] == [objects[at]] + objects[at + 1..];
        at := at + 1;
      }
    }

    /** `handleObjectivePacket`. */
    method HandleObjectivePacket(buffer: DataBuffer) returns (r: Result<()>)
      requires Valid() && buffer.Valid()
      modifies this, buffer`readerindex
      ensures Valid() && buffer.Valid()
      ensures var obj := NextString(old(buffer.Unread()));
              var mode := NextByte(obj.rest);
              if obj.result.Ok? && mode.result.Ok? then
                && r.Ok?
                && objects == (if mode.result.value == 0 then old(objects) + [obj.result.value]
                               else if mode.result.value == 1 then Without(old(objects), obj.result.value)
                               else old(objects))
              else r.Err? && objects == old(objects)
      ensures match Handled(old(objects), old(buffer.Unread())) {
                case Ok(after) => r.Ok? && objects == after
                case Err(e) => r == Err(e) && objects == old(objects)
              }
    {
      var obj :- buffer.ReadString();
      var mode :- buffer.ReadByte();
      if mode == 0 {
        objects := objects + [obj];
      } else if mode == 1 {
        RemoveObjective(obj);
      }
      r := Ok(());
    }

    /** `resetScoreboard`: the removals sent to the client. */
    method ResetScoreboard() returns (sent: seq<Objective>)
      modifies this
      ensures Valid() && objects == []
      ensures sent == Removals(version, old(objects))
    {
      sent := [];
      if objects == [] {
        return;
      }
      var i := 0;
      while i < |objects|
        invariant 0 <= i <= |objects| && objects == old(objects)
        invariant sent == Removals(version, objects[..i])
      {
        assert objects[..i + 1][..i] == objects[..i];
        sent := sent + [Objective(if version == 46 then 0x3B else 0x3F, objects[i], 1, [])];
        i := i + 1;
      }
      assert objects[..i] == objects;
      objects := [];
    }
  }

  /** The packets of `resetScoreboard`. */
  function Removals(version: int, objects: seq<name>): seq<Objective> {
    if objects == [] then []
    else
      Removals(version, objects[..|objects| - 1])
      + [Objective(if version == 46 then 0x3B else 0x3F, objects[|objects| - 1], 1, [])]
  }

  // ---------- agreement ----------

  /** The list after one packet, given by its bytes behind the id. */
  function Handled(objects: seq<name>, v: View): Result<seq<name>> {
    var read := NextString(v);
    var obj :- read.result;
    var mode :- NextByte(read.rest).result;
    Ok(if mode == 0 then objects + [obj] else if mode == 1 then Without(objects, obj) else objects)
  }

  /** The list after the packets of a server; one that cannot be read changes nothing. */
  function Tracked(objects: seq<name>, ps: seq<Objective>): seq<name> {
    if ps == [] then objects
    else
      var before := Tracked(objects, ps[..|ps| - 1]);
      match Handled(before, Bytes(ps[|ps| - 1].Body()))
      case Ok(after) => after
      case Err(_) => before
  }

  lemma HandledBody(objects: seq<name>, p: Objective)
    requires |p.obj| <= MAX_STRING
    ensures var obj := CString(p.obj);
            Handled(objects, Bytes(p.Body())) ==
              Ok(if p.mode == 0 then objects + [obj] else if p.mode == 1 then Without(objects, obj) else objects)
  {
    StringRoundTrip(p.obj, [p.mode] + p.rest);
  }

  /** Whatever readable objective packets pass, the list holds exactly the objectives of the client. */
  lemma {:induction false} TrackedIsShown(version: int, objects: seq<name>, client: set<name>, ps: seq<Objective>)
    requires Members(objects) == client
    requires forall p | p in ps :: p.packetId == ObjectiveId(version) && |p.obj| <= MAX_STRING && 0 !in p.obj
    ensures Members(Tracked(objects, ps)) == ShownAll(version, client, ps)
  {
    if ps != [] {
      var init, p := ps[..|ps| - 1], ps[|ps| - 1];
      TrackedIsShown(version, objects, client, init);
      var before := Tracked(objects, init);
      HandledBody(before, p);
      WithoutMembers(before, p.obj);
      assert Members(before + [p.obj]) == Members(before) + {p.obj};
    }
  }

  /** A name with a zero byte is cut before it is kept, but not by the client: the two then differ. */
  lemma CreatedIsShown(version: int, p: Objective)
    requires p.packetId == ObjectiveId(version) && p.mode == 0 && |p.obj| <= MAX_STRING
    ensures Members(Tracked([], [p])) == ShownAll(version, {}, [p]) <==> 0 !in p.obj
  {
    HandledBody([], p);
    var none: seq<Objective> := [];
    assert [p][..0] == none;
    assert Tracked([], [p]) == [CString(p.obj)];
    assert ShownAll(version, {}, [p]) == {p.obj};
    assert p.obj in {p.obj} && CString(p.obj) in Members([CString(p.obj)]);
  }

  lemma {:induction false} RemovalsShown(version: int, objects: seq<name>, client: set<name>)
    ensures ShownAll(version, client, Removals(version, objects))
         == if version > 47 || version == 46 then client - Members(objects) else client
  {
    if objects != [] {
      var init, last := objects[..|objects| - 1], objects[|objects| - 1];
      RemovalsShown(version, init, client);
      var ps := Removals(version, objects);
      assert ps[..|ps| - 1] == Removals(version, init);
      assert objects == init + [last];
      assert Members(objects) == Members(init) + {last};
    }
  }

  /**
   After `resetScoreboard` the client is left without objectives exactly if it had none or knows the
   packet under the id used; a client of version 47 does not.
   */
  lemma ResetEmptiesClient(version: int, objects: seq<name>)
    ensures ShownAll(version, Members(objects), Removals(version, objects)) == {}
       <==> objects == [] || version > 47 || version == 46
  {
    RemovalsShown(version, objects, Members(objects));
    if objects != [] { assert objects[0] in Members(objects); }
  }
}
