/**
 * The two JSON files of production_harvester.py as records: the progress
 * checkpoint that save_progress writes and load_progress reads back, and the
 * output file that save_output derives from the same state.
 */
module ProductionCheckpoint {
  import opened Options
  import opened Storage
  import opened StringOrder

  /** The keys of the checkpoint file a reader can find; a missing key is None.
      (`last_updated`, a timestamp, is not modelled.) */
  datatype Checkpoint = Checkpoint(
    clicksPerformed: Option<int>,
    propertyLinks: Option<seq<string>>,
    consecutiveNoNew: Option<int>)

  /** The resumable part of the harvester: `clicks_performed`, `property_links`, `consecutive_no_new`. */
  datatype Progress = Progress(clicks: int, links: set<string>, noNew: int)

  /** The output file (`harvested_at`, a timestamp, is not modelled). */
  datatype Output = Output(totalProperties: nat, clicksPerformed: int, properties: seq<string>)

  /** What save_progress writes: both counters and the links as a sorted list. */
  function CheckpointOf(p: Progress): (c: Checkpoint)
    ensures c.clicksPerformed == Some(p.clicks) && c.consecutiveNoNew == Some(p.noNew)
    ensures c.propertyLinks.Some?
    ensures StrictlyAscending(c.propertyLinks.value)
    ensures Elements(c.propertyLinks.value) == p.links
  {
    Checkpoint(Some(p.clicks), Some(Sorted(p.links)), Some(p.noNew))
  }

  /**
   * What load_progress leaves in the harvester, given what the file holds and
   * the state before: each key's value or its default (0, [], 0); an absent or
   * unreadable file leaves the state as it was.
   */
  function Restore(file: Stored<Checkpoint>, before: Progress): (p: Progress)
    ensures !file.Present? ==> p == before
  {
    match file
    case Present(c) =>
      Progress(c.clicksPerformed.GetOr(0), Elements(c.propertyLinks.GetOr([])), c.consecutiveNoNew.GetOr(0))
    case _ => before
  }

  /** Loading what was saved gives the saved state back, whatever the state before. */
  lemma RestoreSaved(p: Progress, before: Progress)
    ensures Restore(Present(CheckpointOf(p)), before) == p
  {
  }

  /** Missing keys read as 0, an empty list and 0, whatever the state before. */
  lemma RestoreDefaults(before: Progress)
    ensures Restore(Present(Checkpoint(None, None, None)), before) == Progress(0, {}, 0)
  {
    assert Elements([]) == {};
  }

  /** What save_output writes: a pure projection of the state. */
  function OutputOf(p: Progress): (o: Output)
    ensures o.totalProperties == |o.properties| == |p.links|
    ensures o.clicksPerformed == p.clicks
    ensures StrictlyAscending(o.properties) && Elements(o.properties) == p.links
    ensures forall i, j :: 0 <= i < j < |o.properties| ==> o.properties[i] != o.properties[j]
  {
    var sorted := Sorted(p.links);
    AscendingDistinct(sorted);
    Output(|p.links|, p.clicks, sorted)
  }
}
