/** The snapshot protocol that carries a component's state across a
    restart: the state holder hands its state out and takes a restored one
    back, and the snapshot repository keeps at most one saved state. */
module Snapshots {

  import opened Wrappers

  /** A component with state `S`, seen through its two state operations. */
  datatype StateHolder<!H, !S> = StateHolder(getState: H -> S, setState: (H, S) -> H)

  /** A snapshot repository over stores `R`: saving a state, and loading the
      saved one, if there is any. */
  datatype SnapshotRepository<!R, !S> = SnapshotRepository(save: (R, S) -> R, tryGet: R -> Option<S>)

  /** Installing a state and reading it back gives that state. */
  ghost predicate Lawful<H(!new), S(!new)>(holder: StateHolder<H, S>) {
    forall h, s :: holder.getState(holder.setState(h, s)) == s
  }

  /** Loading after saving gives the saved state. */
  ghost predicate Faithful<R(!new), S(!new)>(repository: SnapshotRepository<R, S>) {
    forall r, s :: repository.tryGet(repository.save(r, s)) == Some(s)
  }

  /** The component and the store after one Serialize call. */
  function Serialize<H(!new), S(!new), R(!new)>(holder: StateHolder<H, S>, repository: SnapshotRepository<R, S>, h: H, store: R): (r: R)
    ensures Faithful(repository) ==> repository.tryGet(r) == Some(holder.getState(h))
  {
    repository.save(store, holder.getState(h))
  }

  /** The component after one Deserialize call, and whether a state was
      installed. */
  datatype Restored<H> = Restored(holder: H, installed: bool)

  function Deserialize<H(!new), S(!new), R(!new)>(holder: StateHolder<H, S>, repository: SnapshotRepository<R, S>, h: H, store: R): (r: Restored<H>)
    ensures r.installed <==> repository.tryGet(store).Some?
    ensures !r.installed ==> r.holder == h
    ensures Lawful(holder) && r.installed ==> holder.getState(r.holder) == repository.tryGet(store).value
  {
    match repository.tryGet(store)
    case None => Restored(h, false)
    case Some(s) => Restored(holder.setState(h, s), true)
  }

  /** Serializing one component and deserializing into another, through a
      faithful repository, installs the first component's state. */
  lemma RoundTrip<H(!new), S(!new), R(!new)>(holder: StateHolder<H, S>, repository: SnapshotRepository<R, S>, saved: H, target: H, store: R)
    requires Lawful(holder) && Faithful(repository)
    ensures var r := Deserialize(holder, repository, target, Serialize(holder, repository, saved, store));
      r.installed && holder.getState(r.holder) == holder.getState(saved)
  {
  }

  /** Restoring the same snapshot twice leaves the state where restoring it
      once did. */
  lemma DeserializeTwice<H(!new), S(!new), R(!new)>(holder: StateHolder<H, S>, repository: SnapshotRepository<R, S>, h: H, store: R)
    requires Lawful(holder)
    ensures var once := Deserialize(holder, repository, h, store);
      var twice := Deserialize(holder, repository, once.holder, store);
      twice.installed == once.installed && holder.getState(twice.holder) == holder.getState(once.holder)
  {
  }
}
