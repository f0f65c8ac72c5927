/** The descriptors of the SNMP library that the event loop watches. */
module FdSet {

  /** An I/O event source of the loop. */
  class Source {
    const fd: int
    var enabled: bool

    constructor (fd: int)
      ensures this.fd == fd && enabled
    {
      this.fd := fd;
      enabled := true;
    }

    method Disable()
      modifies this
      ensures !enabled
    {
      enabled := false;
    }
  }

  /** What `snmp_select_info` reports: the upper bound and the bits of the set. */
  datatype Select = Select(maxfd: nat, bits: seq<bool>) {
    ghost predicate Valid() {
      maxfd <= |bits|
    }

    ghost predicate Wants(fd: int) {
      0 <= fd < maxfd && fd < |bits| && bits[fd]
    }
  }

  lemma EmptyOrNot(s: set<int>)
    ensures s == {} || exists k :: k in s
  {
    if forall k :: k !in s {
      assert s == {};
    }
  }

  class Watcher {
    /** `snmp_fds` */
    var watched: map<int, Source>

    ghost predicate Valid()
      reads this, watched.Values
    {
      && (forall fd :: fd in watched ==> 0 <= fd && watched[fd].fd == fd && watched[fd].enabled)
    }

    constructor ()
      ensures Valid() && watched == map[]
    {
      watched := map[];
    }

    /** `std::map::emplace`: an existing entry stays as it is. */
    method Emplace(fd: int) returns (inserted: bool)
      modifies this
      ensures inserted <==> fd !in old(watched)
      ensures !inserted ==> watched == old(watched)
      ensures inserted ==>
                && fd in watched && fresh(watched[fd]) && watched[fd].fd == fd && watched[fd].enabled
                && watched == old(watched)[fd := watched[fd]]
    {
      var source := new Source(fd);
      inserted := fd !in watched;
      if inserted {
        watched := watched[fd := source];
      }
    }

    /** First loop: stop watching what is not wanted, and clear the bits of what is watched. */
    method Untrack(maxfd: nat, fdset: array<bool>)
      requires Valid() && maxfd <= fdset.Length
      modifies this, watched.Values, fdset
      ensures Valid()
      ensures forall fd :: fd in watched <==> fd in old(watched) && fd < maxfd && old(fdset[fd])
      ensures forall fd :: fd in watched ==> watched[fd] == old(watched)[fd]
      ensures forall fd :: fd in old(watched) && fd !in watched ==> !old(watched)[fd].enabled
      ensures forall fd :: 0 <= fd < maxfd ==> fdset[fd] == (old(fdset[fd]) && fd !in old(watched))
    {
      // The keys that the map iterator has not visited yet; the order of the visits is immaterial.
      var todo := watched.Keys;
      ghost var bits := fdset[..];
      while todo != {}
        invariant todo <= watched.Keys <= old(watched).Keys
        invariant forall fd :: fd in watched ==> watched[fd] == old(watched)[fd] && watched[fd].enabled
        invariant forall fd :: fd in watched && fd !in todo ==> fd < maxfd && bits[fd]
        invariant forall fd :: fd in old(watched) && fd !in watched ==>
                    !old(watched)[fd].enabled && !(fd < maxfd && bits[fd])
        invariant forall fd :: 0 <= fd < maxfd ==>
                    fdset[fd] == (bits[fd] && (fd in old(watched) ==> fd in todo))
        decreases todo
      {
        EmptyOrNot(todo);
        var fd :| fd in todo;
        todo := todo - {fd};
        if fd >= maxfd || !fdset[fd] {
          watched[fd].Disable();
          watched := watched - {fd};
        } else {
          fdset[fd] := false;
        }
      }
    }

    /** Second loop: watch the rest; no bit that is left belongs to a watched descriptor. */
    method Track(maxfd: nat, fdset: array<bool>)
      requires Valid() && maxfd <= fdset.Length
      requires forall fd :: fd in watched && fd < maxfd ==> !fdset[fd]
      modifies this
      ensures Valid()
      ensures forall fd :: fd in watched <==> fd in old(watched) || (0 <= fd < maxfd && fdset[fd])
      ensures forall fd :: fd in watched ==>
                if fd in old(watched) then watched[fd] == old(watched)[fd] else fresh(watched[fd])
    {
      var fd := 0;
      while fd < maxfd
        invariant 0 <= fd <= maxfd && Valid()
        invariant forall k :: k in watched <==> k in old(watched) || (0 <= k < fd && fdset[k])
        invariant forall k :: k in watched ==>
                    if k in old(watched) then watched[k] == old(watched)[k] else fresh(watched[k])
      {
        if fdset[fd] {
          var inserted := Emplace(fd);
          assert inserted;
        }
        fd := fd + 1;
      }
    }

    /** `sdevent_snmp_update`, given what `snmp_select_info` said. */
    method Update(select: Select)
      requires Valid() && select.Valid()
      modifies this, watched.Values
      ensures Valid()
      ensures forall fd :: fd in watched <==> select.Wants(fd)
      ensures forall fd :: fd in watched ==>
                if fd in old(watched) then watched[fd] == old(watched)[fd] else fresh(watched[fd])
      ensures forall fd :: fd in old(watched) && fd !in watched ==> !old(watched)[fd].enabled
    {
      var fdset := new bool[|select.bits|](i requires 0 <= i < |select.bits| => select.bits[i]);
      Untrack(select.maxfd, fdset);
      Track(select.maxfd, fdset);
    }

    /** Any number of updates: the last one decides what is watched. */
    method Run(selects: seq<Select>)
      requires Valid() && forall k :: 0 <= k < |selects| ==> selects[k].Valid()
      modifies this, watched.Values
      ensures Valid()
      ensures selects == [] ==> watched == old(watched)
      ensures selects != [] ==> forall fd :: fd in watched <==> selects[|selects| - 1].Wants(fd)
      ensures forall fd :: fd in old(watched) && AlwaysWanted(selects, fd) ==>
                fd in watched && watched[fd] == old(watched)[fd]
      ensures forall fd :: fd in old(watched) && !AlwaysWanted(selects, fd) ==>
                !old(watched)[fd].enabled && (fd in watched ==> fresh(watched[fd]))
    {
      var k := 0;
      while k < |selects|
        invariant k <= |selects| && Valid()
        invariant forall fd :: fd in watched ==>
                    fresh(watched[fd]) || (fd in old(watched) && watched[fd] == old(watched)[fd])
        invariant k == 0 ==> watched == old(watched)
        invariant k > 0 ==> forall fd :: fd in watched <==> selects[k - 1].Wants(fd)
        invariant forall fd :: fd in old(watched) && AlwaysWanted(selects[..k], fd) ==>
                    fd in watched && watched[fd] == old(watched)[fd]
        invariant forall fd :: fd in old(watched) && !AlwaysWanted(selects[..k], fd) ==>
                    !old(watched)[fd].enabled && (fd in watched ==> fresh(watched[fd]))
      {
        assert selects[..k + 1] == selects[..k] + [selects[k]];
        assert forall fd :: AlwaysWanted(selects[..k + 1], fd) <==>
                              AlwaysWanted(selects[..k], fd) && selects[k].Wants(fd);
        Update(selects[k]);
        k := k + 1;
      }
      assert selects[..|selects|] == selects;
    }
  }

  ghost predicate AlwaysWanted(selects: seq<Select>, fd: int) {
    forall s :: s in selects ==> s.Wants(fd)
  }
}
