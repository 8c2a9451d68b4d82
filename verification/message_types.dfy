/** `io.spine.code.proto.MessageType.allFrom`: the message types of a file, nested ones
    included, with map-entry types and everything inside them left out.

    `TypeSet`, whose source is not part of this model, is represented by the sequence of
    types in the order `addType` adds them. */
module MessageTypes {
  import opened Protos

  /** `addType(type, set)` for each of `types` in turn: what the loops of `allFrom` and
      `addType` add. */
  function AddTypes(types: seq<MessageProto>): (r: seq<MessageProto>)
    ensures forall m :: m in r ==> !m.mapEntry
    decreases types, 0
  {
    if |types| == 0 then []
    else AddType(types[0]) + AddTypes(types[1..])
  }

  /** `addType(type, set)`: nothing for a map entry; otherwise the type followed by its
      nested types. */
  function AddType(m: MessageProto): (r: seq<MessageProto>)
    ensures m.mapEntry <==> r == []
    ensures !m.mapEntry ==> r[0] == m
    ensures forall t :: t in r ==> !t.mapEntry
    decreases m, 1
  {
    if m.mapEntry then []
    else [m] + AddTypes(m.nested)
  }

  /** `allFrom(file)`. */
  function AllFrom(file: FileProto): (r: seq<MessageProto>)
    ensures |file.messages| == 0 ==> r == []
    ensures forall m :: m in r ==> !m.mapEntry
  {
    AddTypes(file.messages)
  }

  /** `m` is one of `types`, or nested in one of them, through types none of which is a
      map entry: the independent description of what `allFrom` collects. */
  ghost predicate Reachable(types: seq<MessageProto>, m: MessageProto)
    decreases types
  {
    exists i :: 0 <= i < |types| && !types[i].mapEntry && (types[i] == m || Reachable(types[i].nested, m))
  }

  /** The types `addType` collects are exactly the reachable ones. */
  lemma {:induction false} AddTypesReachable(types: seq<MessageProto>, m: MessageProto)
    ensures m in AddTypes(types) <==> Reachable(types, m)
    decreases types, 0
  {
    if |types| > 0 {
      AddTypeReachable(types[0], m);
      AddTypesReachable(types[1..], m);
      if Reachable(types, m) {
        var i :| 0 <= i < |types| && !types[i].mapEntry && (types[i] == m || Reachable(types[i].nested, m));
        if i > 0 {
          assert types[1..][i - 1] == types[i];
        }
      }
      if Reachable(types[1..], m) {
        var i :| 0 <= i < |types[1..]| && !types[1..][i].mapEntry
          && (types[1..][i] == m || Reachable(types[1..][i].nested, m));
        assert types[i + 1] == types[1..][i];
      }
    }
  }

  lemma {:induction false} AddTypeReachable(t: MessageProto, m: MessageProto)
    ensures m in AddType(t) <==> !t.mapEntry && (t == m || Reachable(t.nested, m))
    decreases t, 1
  {
    if !t.mapEntry {
      AddTypesReachable(t.nested, m);
    }
  }

  /** `allFrom` collects exactly the types reachable from the file's top-level types
      through non-map-entry types. */
  lemma AllFromReachable(file: FileProto, m: MessageProto)
    ensures m in AllFrom(file) <==> Reachable(file.messages, m)
  {
    AddTypesReachable(file.messages, m);
  }

  /** A map-entry type is skipped together with every type nested inside it: a type found
      only below a map entry is not collected. */
  lemma MapEntrySubtreeSkipped(file: FileProto, e: MessageProto, m: MessageProto)
    requires e in file.messages && e.mapEntry
    requires forall t :: t in file.messages && t != e ==> t != m && !Reachable(t.nested, m)
    ensures m !in AllFrom(file)
  {
    AllFromReachable(file, m);
  }

  /** Pre-order: a collected type comes before the types nested inside it. */
  lemma AddTypeIsPreOrder(t: MessageProto)
    requires !t.mapEntry
    ensures AddType(t)[0] == t
    ensures forall m :: m in AddType(t)[1..] <==> Reachable(t.nested, m)
  {
    forall m ensures m in AddType(t)[1..] <==> Reachable(t.nested, m) {
      AddTypesReachable(t.nested, m);
    }
  }
}
