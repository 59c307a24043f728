/**
 * The VK side of the backup: resolving the user identifier, picking the
 * largest rendition of each photo and turning the `photos.get` items into
 * photo records. The HTTP responses are inputs, already decoded.
 */
module Vk {
  import Decimal

  /** One rendition of a photo in the `sizes` list of a `photos.get` item. */
  datatype Size = Size(width: int, url: string)

  /** One entry of `response.items` of `photos.get`. */
  datatype Item = Item(id: int, sizes: seq<Size>, likes: int, date: int)

  /** The `{id, url, likes, date}` record kept for each photo. */
  datatype PhotoRecord = PhotoRecord(id: int, url: string, likes: int, date: int)

  /** The decoded answer of `users.get`: a `response` list of ids, or an `error` object. */
  datatype UsersResponse = Users(ids: seq<int>) | UsersError(message: string)

  /** The decoded answer of `photos.get`: the `response.items` list, or no such structure. */
  datatype PhotosResponse = Photos(items: seq<Item>) | NoItems

  /** Why the VK part of a run stops with an exception. */
  datatype Failure =
    | ApiError(message: string)  // `users.get` answered with an error object
    | UserListEmpty              // `users.get` answered with an empty `response` list
    | ItemsMissing               // `photos.get` answer lacks `response.items`
    | SizesEmpty(index: nat)     // `max` over the empty size list of this item

  datatype Result<T> = Ok(value: T) | Err(failure: Failure)

  /**
   * The album owner id the run uses: an all-digit identifier is read as a
   * number without asking VK; anything else is looked up with `users.get`
   * and the id of its first result is taken.
   */
  function ResolveOwner(userId: string, lookup: UsersResponse): (r: Result<int>)
    ensures Decimal.IsDigits(userId) ==> r.Ok? && r.value >= 0
    ensures !Decimal.IsDigits(userId) ==> (r.Ok? <==> lookup.Users? && |lookup.ids| > 0)
    ensures !Decimal.IsDigits(userId) && r.Ok? ==> r.value == lookup.ids[0]
    ensures r.Err? ==> r.failure.ApiError? || r.failure.UserListEmpty?
  {
    if Decimal.IsDigits(userId) then
      Ok(Decimal.DecimalValue(userId))
    else
      match lookup
      case Users(ids) => if |ids| == 0 then Err(UserListEmpty) else Ok(ids[0])
      case UsersError(message) => Err(ApiError(message))
  }

  /** An all-digit identifier resolves the same whatever `users.get` would answer. */
  lemma DigitIdNeedsNoLookup(userId: string, lookup1: UsersResponse, lookup2: UsersResponse)
    requires Decimal.IsDigits(userId)
    ensures ResolveOwner(userId, lookup1) == ResolveOwner(userId, lookup2)
    ensures ResolveOwner(userId, lookup1) == Ok(Decimal.DecimalValue(userId))
  {
  }

  /** A numeric id typed in decimal resolves to that very number. */
  lemma NumericIdResolvesToItself(n: nat, lookup: UsersResponse)
    ensures ResolveOwner(Decimal.NatToDecimal(n), lookup) == Ok(n)
  {
    Decimal.DecimalRoundTrip(n);
  }

  /** A screen name resolves exactly when `users.get` returns at least one user. */
  lemma ScreenNameUsesLookup(userId: string, lookup: UsersResponse)
    requires !Decimal.IsDigits(userId)
    ensures ResolveOwner(userId, lookup).Ok? <==> lookup.Users? && |lookup.ids| > 0
    ensures lookup.Users? && |lookup.ids| > 0 ==> ResolveOwner(userId, lookup).value == lookup.ids[0]
    ensures lookup.UsersError? ==> ResolveOwner(userId, lookup) == Err(ApiError(lookup.message))
  {
  }

  /**
   * The index Python's `max(sizes, key=width)` picks: a left-to-right scan
   * that replaces the candidate only on a strictly greater width, so the
   * first of several equally wide sizes wins.
   */
  function FirstMaxIndex(sizes: seq<Size>): (k: nat)
    requires |sizes| > 0
    ensures k < |sizes|
    ensures forall j :: 0 <= j < |sizes| ==> sizes[j].width <= sizes[k].width
    ensures forall j :: 0 <= j < k ==> sizes[j].width < sizes[k].width
  {
    if |sizes| == 1 then 0
    else
      var k := FirstMaxIndex(sizes[..|sizes| - 1]);
      if sizes[|sizes| - 1].width > sizes[k].width then |sizes| - 1 else k
  }

  /** The two properties of `FirstMaxIndex` single out one index. */
  lemma FirstMaxIndexUnique(sizes: seq<Size>, k: nat)
    requires k < |sizes|
    requires forall j :: 0 <= j < |sizes| ==> sizes[j].width <= sizes[k].width
    requires forall j :: 0 <= j < k ==> sizes[j].width < sizes[k].width
    ensures FirstMaxIndex(sizes) == k
  {
  }

  /** `get_largest_photo_url`: the url of the first size of maximal width. */
  function LargestUrl(sizes: seq<Size>): (url: string)
    requires |sizes| > 0
    ensures exists k :: 0 <= k < |sizes| && sizes[k].url == url
                        && (forall j :: 0 <= j < |sizes| ==> sizes[j].width <= sizes[k].width)
                        && (forall j :: 0 <= j < k ==> sizes[j].width < sizes[k].width)
  {
    sizes[FirstMaxIndex(sizes)].url
  }

  /** Sizes 100, 800, 400 wide: the 800-wide one is chosen. */
  lemma LargestOfThree()
    ensures LargestUrl([Size(100, "A"), Size(800, "B"), Size(400, "C")]) == "B"
  {
  }

  /** Of two equally wide largest sizes, the earlier one is chosen. */
  lemma LargestTieGoesFirst(before: seq<Size>, first: Size, middle: seq<Size>, second: Size, after: seq<Size>)
    requires first.width == second.width
    requires forall s :: s in before ==> s.width < first.width
    requires forall s :: s in middle + after ==> s.width <= first.width
    ensures LargestUrl(before + [first] + middle + [second] + after) == first.url
  {
    var sizes := before + [first] + middle + [second] + after;
    var k := |before|;
    assert sizes[k] == first;
    forall j | 0 <= j < |sizes|
      ensures sizes[j].width <= sizes[k].width
    {
      if j < k {
        assert sizes[j] in before;
      } else if k < j < k + 1 + |middle| {
        assert sizes[j] in middle + after;
      } else if j > k + 1 + |middle| {
        assert sizes[j] in middle + after;
      }
    }
    forall j | 0 <= j < k
      ensures sizes[j].width < sizes[k].width
    {
      assert sizes[j] in before;
    }
    FirstMaxIndexUnique(sizes, k);
  }

  /**
   * `get_photos`: one record per item, in the order of `response.items`.
   * A missing item list, or an item whose size list is empty (where `max`
   * raises), ends the collection with no records.
   */
  method CollectPhotos(response: PhotosResponse) returns (r: Result<seq<PhotoRecord>>)
    ensures response.NoItems? ==> r == Err(ItemsMissing)
    ensures response.Photos? ==>
      (r.Ok? <==> forall i :: 0 <= i < |response.items| ==> |response.items[i].sizes| > 0)
    ensures response.Photos? && r.Err? ==>
      && r.failure.SizesEmpty?
      && r.failure.index < |response.items|
      && response.items[r.failure.index].sizes == []
      && forall i :: 0 <= i < r.failure.index ==> |response.items[i].sizes| > 0
    ensures r.Ok? ==>
      && response.Photos?
      && |r.value| == |response.items|
      && forall i :: 0 <= i < |r.value| ==>
           && r.value[i].id == response.items[i].id
           && r.value[i].url == LargestUrl(response.items[i].sizes)
           && r.value[i].likes == response.items[i].likes
           && r.value[i].date == response.items[i].date
  {
    if response.NoItems? {
      return Err(ItemsMissing);
    }
    var items := response.items;
    var photos: seq<PhotoRecord> := [];
    for i := 0 to |items|
      invariant |photos| == i
      invariant forall k :: 0 <= k < i ==>
        && |items[k].sizes| > 0
        && photos[k] == PhotoRecord(items[k].id, LargestUrl(items[k].sizes), items[k].likes, items[k].date)
    {
      var item := items[i];
      if |item.sizes| == 0 {
        return Err(SizesEmpty(i));
      }
      var url := LargestUrl(item.sizes);
      photos := photos + [PhotoRecord(item.id, url, item.likes, item.date)];
    }
    return Ok(photos);
  }
}
