/**
 * The script's main sequence: resolve the VK user, collect the profile
 * photos, then create the Yandex.Disk folder and upload every photo into
 * the default folder. A failure on the VK side ends the run before any
 * upload; folder and upload statuses are only reported.
 */
module Backup {
  import opened Vk
  import opened YandexDisk

  /** A completed run: the album owner, the records collected and what the upload did. */
  datatype Run = Run(owner: int, records: seq<PhotoRecord>, upload: UploadReport)

  method RunBackup(userId: string, lookup: UsersResponse, listing: PhotosResponse,
                   folderStatus: int, stamps: seq<string>, statuses: seq<int>)
    returns (r: Result<Run>)
    requires listing.Photos? ==> |stamps| == |listing.items| && |statuses| == |listing.items|
    ensures ResolveOwner(userId, lookup).Err? ==> r == Err(ResolveOwner(userId, lookup).failure)
    ensures ResolveOwner(userId, lookup).Ok? && listing.NoItems? ==> r == Err(ItemsMissing)
    ensures ResolveOwner(userId, lookup).Ok? && listing.Photos? && r.Err? ==>
      && r.failure.SizesEmpty?
      && r.failure.index < |listing.items|
      && listing.items[r.failure.index].sizes == []
      && forall i :: 0 <= i < r.failure.index ==> |listing.items[i].sizes| > 0
    ensures r.Ok? <==>
      && ResolveOwner(userId, lookup).Ok?
      && listing.Photos?
      && forall i :: 0 <= i < |listing.items| ==> |listing.items[i].sizes| > 0
    ensures r.Ok? ==>
      && listing.Photos?
      && r.value.owner == ResolveOwner(userId, lookup).value
      && |r.value.records| == |listing.items|
      && (forall i :: 0 <= i < |listing.items| ==>
            && r.value.records[i].id == listing.items[i].id
            && r.value.records[i].url == LargestUrl(listing.items[i].sizes)
            && r.value.records[i].likes == listing.items[i].likes
            && r.value.records[i].date == listing.items[i].date)
      && r.value.upload.folder == CreateFolderOutcome(folderStatus)
      && |r.value.upload.attempts| == |listing.items|
      && forall i :: 0 <= i < |listing.items| ==>
           && r.value.upload.attempts[i].Path() == PathOf(DefaultFolder, NameAt(r.value.records, stamps, i))
           && r.value.upload.attempts[i].source == r.value.records[i].url
           && r.value.upload.attempts[i].outcome == UploadOutcomeOf(statuses[i])
  {
    var owner := ResolveOwner(userId, lookup);
    if owner.Err? {
      return Err(owner.failure);
    }
    var collected := CollectPhotos(listing);
    if collected.Err? {
      return Err(collected.failure);
    }
    var report, _ := UploadPhotos(collected.value, DefaultFolder, folderStatus, stamps, statuses);
    return Ok(Run(owner.value, collected.value, report));
  }
}
