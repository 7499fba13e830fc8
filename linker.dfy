/**
 * The dependency fixpoint of the decompiler's entry point: located file
 * descriptor protos are moved from a worklist into a map of built file
 * descriptors once every file they import is already in the map. Building a
 * descriptor (`Descriptors.FileDescriptor.buildFrom`) is the oracle `build`,
 * which either yields a descriptor or fails; a built descriptor is filed
 * under the name of the proto it was built from.
 */
module Linker {
  import opened Bytes
  import opened Descriptors

  /** Every dependency of a record already has a descriptor. */
  predicate AllPresent<D>(deps: seq<string>, resolved: map<string, D>)
  {
    forall d :: d in deps ==> d in resolved
  }

  /** The descriptors of the dependencies, in the order they are imported. */
  function Arguments<D>(deps: seq<string>, resolved: map<string, D>): seq<D>
    requires AllPresent(deps, resolved)
  {
    seq(|deps|, i requires 0 <= i < |deps| => resolved[deps[i]])
  }

  /** A record a pass leaves in the worklist: a dependency is missing, or building it fails. */
  predicate Blocked<D>(p: FileProto, resolved: map<string, D>, build: (FileProto, seq<D>) -> Option<D>)
  {
    !AllPresent(p.dependencies, resolved) || build(p, Arguments(p.dependencies, resolved)).None?
  }

  /** Each record's dependencies are names of records inserted before it. */
  ghost predicate Topological(inserted: seq<FileProto>)
  {
    forall i, d :: 0 <= i < |inserted| && d in inserted[i].dependencies ==>
      exists j :: 0 <= j < i && inserted[j].name == d
  }

  function Names(ps: seq<FileProto>): set<string>
  {
    set p | p in ps :: p.name
  }

  /**
   * The fixpoint over a copy of the located records. Passes repeat while the
   * worklist is non-empty and the previous pass inserted something; a pass
   * walks the worklist in order, and a record whose dependencies all have
   * descriptors and whose build succeeds is inserted and removed on the spot,
   * so later records of the same pass already see it.
   *
   * Returned: the map, the records in the order they were inserted, the
   * records left over, and the number of passes made.
   */
  method Link<D>(protos: seq<FileProto>, build: (FileProto, seq<D>) -> Option<D>)
    returns (resolved: map<string, D>, inserted: seq<FileProto>, remaining: seq<FileProto>, passes: nat)
    ensures multiset(inserted) + multiset(remaining) == multiset(protos)
    ensures resolved.Keys == Names(inserted)
    ensures Topological(inserted)
    ensures forall p :: p in remaining ==> Blocked(p, resolved, build)
    ensures passes <= |protos| + 1
    ensures |protos| > 0 ==> passes >= 1
  {
    var worklist := protos;
    resolved, inserted, passes := map[], [], 0;
    var changed := true;
    while |worklist| > 0 && changed
      invariant multiset(inserted) + multiset(worklist) == multiset(protos)
      invariant resolved.Keys == Names(inserted)
      invariant Topological(inserted)
      invariant passes == 0 ==> changed && worklist == protos
      invariant changed ==> passes + |worklist| <= |protos|
      invariant !changed ==> passes + |worklist| <= |protos| + 1
      invariant !changed ==> forall p :: p in worklist ==> Blocked(p, resolved, build)
      decreases |worklist| + (if changed then 1 else 0)
    {
      worklist, resolved, inserted, changed := Pass(worklist, resolved, inserted, protos, build);
      passes := passes + 1;
    }
    remaining := worklist;
  }

  /**
   * One pass of the iterator over the worklist: every record that can be
   * built is inserted and removed on the spot; `changed` tells whether any was.
   */
  method Pass<D>(worklist: seq<FileProto>, resolved: map<string, D>, inserted: seq<FileProto>,
                 ghost protos: seq<FileProto>, build: (FileProto, seq<D>) -> Option<D>)
    returns (rest: seq<FileProto>, resolved': map<string, D>, inserted': seq<FileProto>, changed: bool)
    requires multiset(inserted) + multiset(worklist) == multiset(protos)
    requires resolved.Keys == Names(inserted) && Topological(inserted)
    ensures multiset(inserted') + multiset(rest) == multiset(protos)
    ensures resolved'.Keys == Names(inserted') && Topological(inserted')
    ensures |rest| <= |worklist| && (changed <==> |rest| < |worklist|)
    ensures !changed ==> forall p :: p in rest ==> Blocked(p, resolved', build)
  {
    rest, resolved', inserted', changed := worklist, resolved, inserted, false;
    var j := 0;
    while j < |rest|
      invariant 0 <= j <= |rest| <= |worklist|
      invariant multiset(inserted') + multiset(rest) == multiset(protos)
      invariant resolved'.Keys == Names(inserted') && Topological(inserted')
      invariant changed <==> |rest| < |worklist|
      invariant !changed ==> forall i :: 0 <= i < j ==> Blocked(rest[i], resolved', build)
      decreases |rest| - j
    {
      var p := rest[j];
      var added;
      resolved', inserted', added := Visit(p, resolved', inserted', build);
      if added {
        RemoveAt(rest, j);
        rest := rest[..j] + rest[j + 1..];
        changed := true;
      } else {
        j := j + 1;
      }
    }
  }

  /** Taking element `j` out of `s` leaves the rest of its multiset and one element fewer. */
  lemma RemoveAt(s: seq<FileProto>, j: nat)
    requires j < |s|
    ensures multiset(s[..j] + s[j + 1..]) + multiset{s[j]} == multiset(s)
    ensures |s[..j] + s[j + 1..]| == |s| - 1
  {
    assert s == s[..j] + [s[j]] + s[j + 1..];
  }

  /**
   * The loop body for one record: when every dependency has a descriptor and
   * the build succeeds, the descriptor is filed under the record's name and
   * the record is appended to the inserted ones; otherwise (the exception is
   * caught) nothing changes.
   */
  method Visit<D>(p: FileProto, resolved: map<string, D>, inserted: seq<FileProto>,
                  build: (FileProto, seq<D>) -> Option<D>)
    returns (resolved': map<string, D>, inserted': seq<FileProto>, added: bool)
    requires resolved.Keys == Names(inserted) && Topological(inserted)
    ensures added <==> !Blocked(p, resolved, build)
    ensures added ==> resolved' == resolved[p.name := build(p, Arguments(p.dependencies, resolved)).value] &&
                      inserted' == inserted + [p]
    ensures !added ==> resolved' == resolved && inserted' == inserted
    ensures resolved'.Keys == Names(inserted') && Topological(inserted')
  {
    resolved', inserted', added := resolved, inserted, false;
    if AllPresent(p.dependencies, resolved) {
      var built := build(p, Arguments(p.dependencies, resolved));
      if built.Some? {
        InsertKeepsOrder(inserted, p, resolved.Keys);
        resolved' := resolved[p.name := built.value];
        inserted' := inserted + [p];
        added := true;
      }
    }
  }

  /** Appending a record whose dependencies all name inserted records keeps the order topological. */
  lemma InsertKeepsOrder(inserted: seq<FileProto>, p: FileProto, keys: set<string>)
    requires Topological(inserted) && keys == Names(inserted)
    requires forall d :: d in p.dependencies ==> d in keys
    ensures Topological(inserted + [p])
  {
    var next := inserted + [p];
    forall i, d | 0 <= i < |next| && d in next[i].dependencies
      ensures exists j :: 0 <= j < i && next[j].name == d
    {
      if i == |inserted| {
        var q :| q in inserted && q.name == d;
        var j :| 0 <= j < |inserted| && inserted[j] == q;
        assert next[j] == q;
      } else {
        var j :| 0 <= j < i && inserted[j].name == d;
        assert next[j] == inserted[j];
      }
    }
  }

  /**
   * Every dependency of an inserted record is the name of a located record;
   * so a record importing a file that no located record is named after never
   * gets a descriptor.
   */
  lemma InsertedDependenciesLocated(protos: seq<FileProto>, inserted: seq<FileProto>)
    requires Topological(inserted) && multiset(inserted) <= multiset(protos)
    ensures forall p, d :: p in inserted && d in p.dependencies ==> d in Names(protos)
  {
    forall p, d | p in inserted && d in p.dependencies ensures d in Names(protos) {
      var i :| 0 <= i < |inserted| && inserted[i] == p;
      var j :| 0 <= j < i && inserted[j].name == d;
      assert inserted[j] in multiset(inserted);
      assert inserted[j] in protos;
    }
  }
}
