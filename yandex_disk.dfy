/**
 * The Yandex.Disk side of the backup: creating the destination folder and
 * uploading every photo by URL under a name built from its like count.
 * The HTTP status codes and the formatted clock reading of each photo are
 * inputs.
 */
module YandexDisk {
  import Decimal
  import opened Vk

  /** The folder `upload_photos` uses when its caller names none. */
  const DefaultFolder: string := "VK_Photos"

  /** What `create_folder` reports for the status of its PUT request. */
  datatype FolderOutcome = Created | AlreadyExists | FolderError(status: int) {
    predicate Succeeded() {
      !FolderError?
    }
  }

  /** What the loop reports for the status of one upload POST request. */
  datatype UploadOutcome = Accepted | UploadError(status: int)

  /** One upload request: destination folder and file name, source url and its reported outcome. */
  datatype Attempt = Attempt(folder: string, fileName: string, source: string, outcome: UploadOutcome) {
    /** The `path` parameter of the request. */
    function Path(): string {
      PathOf(folder, fileName)
    }
  }

  /** Everything `upload_photos` does, in order: the folder, then one attempt per photo. */
  datatype UploadReport = UploadReport(folder: FolderOutcome, attempts: seq<Attempt>)

  /** `create_folder`: 201 and 409 both leave the folder in place; any other status is reported. */
  function CreateFolderOutcome(status: int): (o: FolderOutcome)
    ensures o.Succeeded() <==> status == 201 || status == 409
    ensures o == Created <==> status == 201
    ensures !o.Succeeded() ==> o.status == status
  {
    if status == 201 then Created
    else if status == 409 then AlreadyExists
    else FolderError(status)
  }

  /** Only 202 (accepted for fetching) counts as a successful upload. */
  function UploadOutcomeOf(status: int): (o: UploadOutcome)
    ensures o.Accepted? <==> status == 202
    ensures o.UploadError? ==> o.status == status
  {
    if status == 202 then Accepted else UploadError(status)
  }

  /** `f"{likes}.jpg"`: the like count in decimal, then the extension. */
  function PlainName(likes: int): (name: string)
    ensures |name| > 4 && name[|name| - 4..] == ".jpg"
    ensures Decimal.IsNumeral(name[..|name| - 4])
    ensures name[..|name| - 4] == Decimal.IntToDecimal(likes)
  {
    var text := Decimal.IntToDecimal(likes);
    assert (text + ".jpg")[..|text|] == text;
    text + ".jpg"
  }

  /**
   * `f"{likes}_{date_uploaded}.jpg"`: the like count in decimal, an
   * underscore, the clock reading, then the extension.
   */
  function SuffixedName(likes: int, stamp: string): (name: string)
    ensures |name| >= |stamp| + 6
    ensures name[|name| - |stamp| - 5] == '_' && name[|name| - |stamp| - 4..] == stamp + ".jpg"
    ensures Decimal.IsNumeral(name[..|name| - |stamp| - 5])
    ensures name[..|name| - |stamp| - 5] == Decimal.IntToDecimal(likes)
  {
    var text := Decimal.IntToDecimal(likes);
    var name := text + ("_" + stamp + ".jpg");
    assert name[..|text|] == text;
    assert name[|text| + 1..] == stamp + ".jpg";
    name
  }

  /** `f"{folder_name}/{file_name}"`: the folder, a slash, then the file name. */
  function PathOf(folder: string, name: string): (path: string)
    ensures |path| == |folder| + 1 + |name|
    ensures path[..|folder|] == folder && path[|folder|] == '/' && path[|folder| + 1..] == name
  {
    folder + "/" + name
  }

  /** The like counts of the first `n` photos. */
  function SeenLikes(photos: seq<PhotoRecord>, n: nat): set<int>
    requires n <= |photos|
  {
    set j | 0 <= j < n :: photos[j].likes
  }

  /**
   * The name photo `i` receives: the plain name if no earlier photo has
   * its like count, otherwise the name suffixed with its own clock reading.
   */
  function NameAt(photos: seq<PhotoRecord>, stamps: seq<string>, i: nat): string
    requires i < |photos| && i < |stamps|
  {
    if photos[i].likes in SeenLikes(photos, i) then SuffixedName(photos[i].likes, stamps[i])
    else PlainName(photos[i].likes)
  }

  /** The names `upload_photos` gives the photos, in input order. */
  function FileNames(photos: seq<PhotoRecord>, stamps: seq<string>): (named: seq<string>)
    requires |photos| <= |stamps|
    ensures |named| == |photos|
  {
    seq(|photos|, k requires 0 <= k < |photos| => NameAt(photos, stamps, k))
  }

  /**
   * The requests `upload_photos` submits for the first `n` photos, photo
   * `k` under the name `named[k]`, each with the outcome it reports.
   */
  function AttemptsUpTo(photos: seq<PhotoRecord>, folder: string, named: seq<string>, statuses: seq<int>, n: nat): (a: seq<Attempt>)
    requires n <= |photos| && n <= |named| && n <= |statuses|
    ensures |a| == n
  {
    seq(n, k requires 0 <= k < n => Attempt(folder, named[k], photos[k].url, UploadOutcomeOf(statuses[k])))
  }

  /** One more photo appends its request to those before it. */
  lemma AttemptsUpToStep(photos: seq<PhotoRecord>, folder: string, named: seq<string>, statuses: seq<int>, n: nat)
    requires n < |photos| && n < |named| && n < |statuses|
    ensures AttemptsUpTo(photos, folder, named, statuses, n + 1)
         == AttemptsUpTo(photos, folder, named, statuses, n) + [Attempt(folder, named[n], photos[n].url, UploadOutcomeOf(statuses[n]))]
  {
  }

  /** Photo `j` is the last of the first `n` photos whose like count is `likes`. */
  ghost predicate LastWith(photos: seq<PhotoRecord>, n: nat, j: nat, likes: int)
    requires n <= |photos|
  {
    j < n && photos[j].likes == likes && forall k :: j < k < n ==> photos[k].likes != likes
  }

  /** Adding photo `n` to the seen prefix adds its like count. */
  lemma SeenLikesStep(photos: seq<PhotoRecord>, n: nat)
    requires n < |photos|
    ensures SeenLikes(photos, n + 1) == SeenLikes(photos, n) + {photos[n].likes}
  {
  }

  /**
   * The loop's choice of a file name from the `photo_names` table: suffixed
   * with the clock reading when the like count is already in the table.
   */
  function ChooseName(names: map<int, string>, likes: int, stamp: string): (name: string)
    ensures name == PlainName(likes) <==> likes !in names
    ensures name == SuffixedName(likes, stamp) <==> likes in names
  {
    NamesDetermineParts(likes, likes, stamp, stamp);
    if likes in names then SuffixedName(likes, stamp) else PlainName(likes)
  }

  /** With the table keyed by the like counts seen so far, the loop's choice is `NameAt`. */
  lemma NameChoice(photos: seq<PhotoRecord>, stamps: seq<string>, n: nat, names: map<int, string>)
    requires n < |photos| && n < |stamps|
    requires names.Keys == SeenLikes(photos, n)
    ensures ChooseName(names, photos[n].likes, stamps[n]) == NameAt(photos, stamps, n)
  {
  }

  /** The table maps each like count seen to the name `named` gives the last photo with it. */
  ghost predicate TableHoldsLastNames(photos: seq<PhotoRecord>, named: seq<string>, n: nat, names: map<int, string>)
    requires n <= |photos| && n <= |named|
  {
    forall likes :: likes in names ==>
      exists j: nat :: LastWith(photos, n, j, likes) && names[likes] == named[j]
  }

  /**
   * Storing the name of photo `n` under its like count keeps each key at
   * the name of the last photo processed with that count.
   */
  lemma TableStep(photos: seq<PhotoRecord>, named: seq<string>, n: nat, names: map<int, string>)
    requires n < |photos| && n < |named|
    requires TableHoldsLastNames(photos, named, n, names)
    ensures TableHoldsLastNames(photos, named, n + 1, names[photos[n].likes := named[n]])
  {
    var stored := names[photos[n].likes := named[n]];
    forall likes | likes in stored
      ensures exists j: nat :: LastWith(photos, n + 1, j, likes) && stored[likes] == named[j]
    {
      if likes == photos[n].likes {
        assert LastWith(photos, n + 1, n, likes);
      } else {
        var j: nat :| LastWith(photos, n, j, likes) && names[likes] == named[j];
        assert LastWith(photos, n + 1, j, likes);
      }
    }
  }

  /**
   * One pass of the `upload_photos` loop keeps its invariants: the request
   * list grows by photo `i`'s request and the table by its name.
   */
  lemma UploadStep(photos: seq<PhotoRecord>, folder: string, stamps: seq<string>, statuses: seq<int>,
                   i: nat, names: map<int, string>, attempts: seq<Attempt>)
    requires |stamps| == |photos| && |statuses| == |photos| && i < |photos|
    requires attempts == AttemptsUpTo(photos, folder, FileNames(photos, stamps), statuses, i)
    requires names.Keys == SeenLikes(photos, i)
    requires TableHoldsLastNames(photos, FileNames(photos, stamps), i, names)
    ensures var fileName := ChooseName(names, photos[i].likes, stamps[i]);
            && attempts + [Attempt(folder, fileName, photos[i].url, UploadOutcomeOf(statuses[i]))]
               == AttemptsUpTo(photos, folder, FileNames(photos, stamps), statuses, i + 1)
            && names[photos[i].likes := fileName].Keys == SeenLikes(photos, i + 1)
            && TableHoldsLastNames(photos, FileNames(photos, stamps), i + 1, names[photos[i].likes := fileName])
  {
    var named := FileNames(photos, stamps);
    assert ChooseName(names, photos[i].likes, stamps[i]) == named[i] by {
      NameChoice(photos, stamps, i, names);
    }
    TableStep(photos, named, i, names);
    SeenLikesStep(photos, i);
    AttemptsUpToStep(photos, folder, named, statuses, i);
  }

  /**
   * `upload_photos`: ensure the folder exists, then, photo by photo in input
   * order, pick a name through the `photo_names` table and submit one upload.
   * `names` is the table as the loop leaves it.
   */
  method UploadPhotos(photos: seq<PhotoRecord>, folder: string, folderStatus: int,
                      stamps: seq<string>, statuses: seq<int>)
    returns (report: UploadReport, names: map<int, string>)
    requires |stamps| == |photos| && |statuses| == |photos|
    ensures report.folder == CreateFolderOutcome(folderStatus)
    ensures |report.attempts| == |photos|
    ensures forall i :: 0 <= i < |photos| ==>
      && report.attempts[i].folder == folder
      && report.attempts[i].fileName == NameAt(photos, stamps, i)
      && report.attempts[i].source == photos[i].url
      && report.attempts[i].outcome == UploadOutcomeOf(statuses[i])
    ensures names.Keys == SeenLikes(photos, |photos|)
    ensures TableHoldsLastNames(photos, FileNames(photos, stamps), |photos|, names)
  {
    var folderOutcome := CreateFolderOutcome(folderStatus);
    names := map[];
    var attempts: seq<Attempt> := [];
    for i := 0 to |photos|
      invariant attempts == AttemptsUpTo(photos, folder, FileNames(photos, stamps), statuses, i)
      invariant names.Keys == SeenLikes(photos, i)
      invariant TableHoldsLastNames(photos, FileNames(photos, stamps), i, names)
    {
      var likes := photos[i].likes;
      var fileName := ChooseName(names, likes, stamps[i]);
      UploadStep(photos, folder, stamps, statuses, i, names, attempts);
      names := names[likes := fileName];
      attempts := attempts + [Attempt(folder, fileName, photos[i].url, UploadOutcomeOf(statuses[i]))];
    }
    report := UploadReport(folderOutcome, attempts);
  }

  /**
   * A name determines the like count it was made from, and whether and
   * with which clock reading it was suffixed.
   */
  lemma NamesDetermineParts(a: int, b: int, s: string, t: string)
    ensures PlainName(a) == PlainName(b) ==> a == b
    ensures PlainName(a) != SuffixedName(b, t)
    ensures SuffixedName(a, s) == SuffixedName(b, t) ==> a == b && s == t
  {
    var da, db := Decimal.IntToDecimal(a), Decimal.IntToDecimal(b);
    if PlainName(a) == PlainName(b) {
      Decimal.SplitAtSeparator(da, ".jpg", db, ".jpg");
      Decimal.IntToDecimalInjective(a, b);
    }
    if PlainName(a) == SuffixedName(b, t) {
      Decimal.SplitAtSeparator(da, ".jpg", db, "_" + t + ".jpg");
    }
    if SuffixedName(a, s) == SuffixedName(b, t) {
      Decimal.SplitAtSeparator(da, "_" + s + ".jpg", db, "_" + t + ".jpg");
      Decimal.IntToDecimalInjective(a, b);
      assert s == ("_" + s + ".jpg")[1..|s| + 1];
      assert t == ("_" + t + ".jpg")[1..|t| + 1];
    }
  }

  /**
   * The numeral in front of either kind of name is exactly `str(likes)`,
   * and reads back as the like count: its digits give the count, after a
   * minus sign for a negative one.
   */
  lemma NamesReadBack(likes: int, stamp: string)
    ensures PlainName(likes)[..|PlainName(likes)| - 4] == Decimal.IntToDecimal(likes)
    ensures SuffixedName(likes, stamp)[..|SuffixedName(likes, stamp)| - |stamp| - 5] == Decimal.IntToDecimal(likes)
    ensures var plain := PlainName(likes)[..|PlainName(likes)| - 4];
            && (likes >= 0 ==> Decimal.IsDigits(plain) && Decimal.DecimalValue(plain) == likes)
            && (likes < 0 ==> |plain| > 1 && plain[0] == '-'
                              && Decimal.IsDigits(plain[1..]) && Decimal.DecimalValue(plain[1..]) == -likes)
    ensures var suffixed := SuffixedName(likes, stamp)[..|SuffixedName(likes, stamp)| - |stamp| - 5];
            && (likes >= 0 ==> Decimal.IsDigits(suffixed) && Decimal.DecimalValue(suffixed) == likes)
            && (likes < 0 ==> |suffixed| > 1 && suffixed[0] == '-'
                              && Decimal.IsDigits(suffixed[1..]) && Decimal.DecimalValue(suffixed[1..]) == -likes)
  {
    var text := Decimal.IntToDecimal(likes);
    Decimal.IntToDecimalRoundTrip(likes);
    assert PlainName(likes)[..|PlainName(likes)| - 4] == text;
    assert SuffixedName(likes, stamp)[..|SuffixedName(likes, stamp)| - |stamp| - 5] == text;
  }

  /** Within one folder, two paths are equal exactly when the names are. */
  lemma PathsEqualIffNames(folder: string, n1: string, n2: string)
    ensures PathOf(folder, n1) == PathOf(folder, n2) <==> n1 == n2
  {
    if PathOf(folder, n1) == PathOf(folder, n2) {
      assert n1 == PathOf(folder, n1)[|folder| + 1..];
      assert n2 == PathOf(folder, n2)[|folder| + 1..];
    }
  }

  /**
   * The first photo with a given like count is named `<likes>.jpg`; every
   * later one `<likes>_<its own clock reading>.jpg`.
   */
  lemma FirstOfLikesGetsPlainName(photos: seq<PhotoRecord>, stamps: seq<string>, i: nat)
    requires i < |photos| && i < |stamps|
    ensures NameAt(photos, stamps, i) == PlainName(photos[i].likes)
            <==> forall j :: 0 <= j < i ==> photos[j].likes != photos[i].likes
    ensures NameAt(photos, stamps, i) == SuffixedName(photos[i].likes, stamps[i])
            <==> exists j :: 0 <= j < i && photos[j].likes == photos[i].likes
  {
  }

  /**
   * Two uploads of one run go to the same path exactly when the photos have
   * the same like count, neither is the first with it, and their clock
   * readings are equal: same-second collisions overwrite one another.
   */
  lemma PathsCollideIff(photos: seq<PhotoRecord>, stamps: seq<string>, folder: string, i: nat, j: nat)
    requires i < j < |photos| && |stamps| == |photos|
    ensures PathOf(folder, NameAt(photos, stamps, i)) == PathOf(folder, NameAt(photos, stamps, j))
            <==> && photos[i].likes == photos[j].likes
                 && (exists k :: 0 <= k < i && photos[k].likes == photos[i].likes)
                 && stamps[i] == stamps[j]
  {
    var li, lj := photos[i].likes, photos[j].likes;
    PathsEqualIffNames(folder, NameAt(photos, stamps, i), NameAt(photos, stamps, j));
    FirstOfLikesGetsPlainName(photos, stamps, i);
    FirstOfLikesGetsPlainName(photos, stamps, j);
    NamesDetermineParts(li, lj, stamps[i], stamps[j]);
    NamesDetermineParts(lj, li, stamps[j], stamps[i]);
    if li == lj {
      assert li in SeenLikes(photos, j);
    }
  }

  /** With pairwise different clock readings, no two uploads of a run share a path. */
  lemma DistinctStampsGiveDistinctPaths(photos: seq<PhotoRecord>, stamps: seq<string>, folder: string)
    requires |stamps| == |photos|
    requires forall i, j :: 0 <= i < j < |stamps| ==> stamps[i] != stamps[j]
    ensures forall i, j :: 0 <= i < j < |photos| ==>
      PathOf(folder, NameAt(photos, stamps, i)) != PathOf(folder, NameAt(photos, stamps, j))
  {
    forall i, j | 0 <= i < j < |photos|
      ensures PathOf(folder, NameAt(photos, stamps, i)) != PathOf(folder, NameAt(photos, stamps, j))
    {
      PathsCollideIff(photos, stamps, folder, i, j);
    }
  }

  /** Three photos with 5 likes uploaded within one second: the last two share a path. */
  lemma SameSecondCollision(url: string, stamp: string)
    ensures var photos := [PhotoRecord(1, url, 5, 0), PhotoRecord(2, url, 5, 0), PhotoRecord(3, url, 5, 0)];
            var stamps := [stamp, stamp, stamp];
            && NameAt(photos, stamps, 0) == "5.jpg"
            && NameAt(photos, stamps, 1) == "5_" + stamp + ".jpg"
            && PathOf(DefaultFolder, NameAt(photos, stamps, 1)) == PathOf(DefaultFolder, NameAt(photos, stamps, 2))
  {
  }
}
