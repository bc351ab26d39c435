// What create_kernel, retain_shared_state and ensure of backends/vulkan do to the table
// of a device, told by who has it and how large it is.

module RegistryLaws {
  import opened Registry
  import opened Wrappers

  // The table there is, whoever has it.
  predicate Kept(s: State) {
    s.kernels != map[] || s.pinned.Some?
  }

  lemma LockIff(s: State)
    requires Sound(s)
    ensures Lock(s) == if Kept(s) then s.shared else None
    ensures Kept(s) ==> s.shared.Some? && s.shared.value in s.tables
  {
    NoneLeft(s);
    if s.kernels != map[] {
      var k :| k in s.kernels;
      assert Live(s, s.kernels[k].table);
    }
  }

  // Kernels that are there want tables of this size.
  predicate Agree(s: State, bytes: nat) {
    forall k :: k in s.kernels ==> s.kernels[k].declared == bytes
  }

  // A pin keeps a table of this size.
  predicate Pinned(s: State, bytes: nat) {
    s.pinned.Some? && s.pinned.value in s.tables && s.tables[s.pinned.value].bytes == bytes
  }

  // A kernel that wants a table is made if and only if it is built, every kernel there
  // has a table of that size, and with no kernel there either a pin keeps one or the
  // device gives the memory. It gets the table the others have, or the pinned one, and
  // else a new one that is not ready. A pin on a table of another size is no obstacle,
  // no pin is left in any case, and nothing else changes.
  lemma CreateIff(s: State, kernel: nat, bytes: nat, granted: bool, built: bool)
    requires Sound(s) && bytes > 0 && kernel !in s.kernels
    ensures var u := Created(s, kernel, bytes, granted, built);
            var there := s.kernels != map[] || Pinned(s, bytes);
            && (kernel in u.kernels <==> built && Agree(s, bytes) && (there || granted))
            && (kernel in u.kernels && there ==> s.shared == Some(u.kernels[kernel].table) && u.tables == s.tables)
            && (kernel in u.kernels && !there ==>
                  u.kernels[kernel].table == s.next && u.tables == s.tables[s.next := Table(bytes, false, 0)])
            && (kernel in u.kernels ==> u.kernels[kernel].declared == bytes && u.shared == Some(u.kernels[kernel].table))
            && u.pinned == None && u.kernels - {kernel} == s.kernels
  {
    var t := Unpinned(s, bytes);
    LockIff(s);
    LockIff(t);
    if s.kernels != map[] {
      var k :| k in s.kernels;
      assert s.kernels[k].declared == s.tables[s.shared.value].bytes;
    }
  }

  // Without a table to share a kernel leaves all as it is.
  lemma CreateWithoutTable(s: State, kernel: nat, granted: bool, built: bool)
    ensures Created(s, kernel, 0, granted, built) == s
  {
  }

  // Where the memory is not given or the build fails, a table of the size asked for
  // stays the one there is only if another kernel has it.
  lemma NotMade(s: State, kernel: nat, bytes: nat, granted: bool, built: bool)
    requires Sound(s) && bytes > 0 && kernel !in s.kernels && kernel !in Created(s, kernel, bytes, granted, built).kernels
    ensures var u := Created(s, kernel, bytes, granted, built);
            u.kernels == s.kernels && (Lock(u).Some? <==> s.kernels != map[])
  {
    CreateIff(s, kernel, bytes, granted, built);
    CreateKeepsSound(s, kernel, bytes, granted, built);
    LockIff(Created(s, kernel, bytes, granted, built));
    assert Created(s, kernel, bytes, granted, built).kernels - {kernel} == Created(s, kernel, bytes, granted, built).kernels;
  }

  // A pin is on the table there is, until it is taken off.
  lemma RetainPins(s: State, retain: bool)
    requires Sound(s)
    ensures var u := Step(s, Retain(retain));
            && u == s.(pinned := u.pinned)
            && u.pinned == if retain && Kept(s) then s.shared else None
  {
    LockIff(s);
  }

  // A table is rebuilt for another key than its own or where it is not ready; then it is
  // ready, for the new key, if and only if the build succeeds, and no other table changes.
  lemma EnsureBuilds(s: State, kernel: nat, key: nat, built: bool)
    requires Sound(s) && kernel in s.kernels
    ensures var t := s.kernels[kernel].table;
            var u := Step(s, Ensure(kernel, key, built));
            && t in s.tables && t in u.tables && u == s.(tables := s.tables[t := u.tables[t]]) && u.tables[t].bytes == s.tables[t].bytes
            && (s.tables[t].ready && s.tables[t].key == key ==> u == s)
            && (!s.tables[t].ready || s.tables[t].key != key ==>
                  (u.tables[t].ready <==> built) && (built ==> u.tables[t].key == key))
  {
    var t := s.kernels[kernel].table;
    assert s.tables[t := s.tables[t]] == s.tables;
  }
}
