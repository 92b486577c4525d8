/**
 * The `update_images_from_folder` command: for every movie, look for
 * `media/movie/images/m_<title>.png` and, when it exists, store its path relative
 * to `media/` in the movie's `image` field and count the movie.
 *
 * The file system is the set `existing` of paths that exist; the movie table is an
 * array of rows, and `movie.save()` is the assignment to the row.
 */
module Images {

  /** A row of the movie table, as far as this command reads and writes it. */
  datatype MovieRow = MovieRow(title: string, image: string)

  datatype Outcome = FolderMissing | Finished(updatedCount: nat)

  const ImagesFolder: string := "media/movie/images/"
  const RelativeFolder: string := "movie/images"

  /**
   * Python's `os.path.join(a, b)` on POSIX: an absolute `b` replaces `a`; otherwise `a`
   * is kept, followed by one `/` unless `a` is empty or already ends in one, then `b`.
   */
  function Join(a: string, b: string): (p: string)
    ensures |b| > 0 && b[0] == '/' ==> p == b
    ensures |b| <= |p| && p[|p| - |b|..] == b
    ensures !(|b| > 0 && b[0] == '/') ==> |a| <= |p| && p[..|a|] == a
    ensures !(|b| > 0 && b[0] == '/') && (a == [] || a[|a| - 1] == '/') ==> |p| == |a| + |b|
    ensures !(|b| > 0 && b[0] == '/') && !(a == [] || a[|a| - 1] == '/') ==>
      |p| == |a| + 1 + |b| && p[|a|] == '/'
  {
    if |b| > 0 && b[0] == '/' then b
    else if a == [] || a[|a| - 1] == '/' then a + b
    else a + "/" + b
  }

  /** The file name looked for: `f"m_{movie.title}.png"`. */
  function ImageFileName(title: string): (name: string)
    ensures |name| == |title| + 6
    ensures name[..2] == "m_" && name[2..|name| - 4] == title && name[|name| - 4..] == ".png"
  {
    "m_" + title + ".png"
  }

  /** The path whose existence is checked: the folder ends in `/`, so the join only concatenates. */
  function FullPath(title: string): (p: string)
    ensures p == ImagesFolder + ImageFileName(title)
  {
    Join(ImagesFolder, ImageFileName(title))
  }

  /** The value stored in `movie.image`: the join puts one `/` between folder and file name. */
  function RelativePath(title: string): (p: string)
    ensures p == RelativeFolder + "/" + ImageFileName(title)
  {
    Join(RelativeFolder, ImageFileName(title))
  }

  /** Both paths of a title written out in full. */
  lemma {:induction false} PathsOfTitle(title: string)
    ensures FullPath(title) == "media/movie/images/m_" + title + ".png"
    ensures RelativePath(title) == "movie/images/m_" + title + ".png"
  {
    var name := ImageFileName(title);
    assert FullPath(title) == ImagesFolder + name;
    assert RelativePath(title) == RelativeFolder + "/" + name;
  }

  /** The check made for one movie: does `media/movie/images/m_<title>.png` exist? */
  predicate HasImage(row: MovieRow, existing: set<string>)
    ensures HasImage(row, existing) <==> "media/movie/images/m_" + row.title + ".png" in existing
  {
    PathsOfTitle(row.title);
    FullPath(row.title) in existing
  }

  /** One iteration of the loop: the row after its possible update. */
  function AssignImage(row: MovieRow, existing: set<string>): (r: MovieRow)
    ensures r.title == row.title
    ensures HasImage(row, existing) ==> r.image == "movie/images/m_" + row.title + ".png"
    ensures !HasImage(row, existing) ==> r == row
  {
    PathsOfTitle(row.title);
    if HasImage(row, existing) then row.(image := RelativePath(row.title)) else row
  }

  /**
   * The whole table after the loop: no title changes, every movie whose file exists
   * points at it, and every other movie is left as it was.
   */
  function AssignImages(rows: seq<MovieRow>, existing: set<string>): (r: seq<MovieRow>)
    ensures |r| == |rows|
    ensures forall i :: 0 <= i < |rows| ==> r[i].title == rows[i].title
    ensures forall i :: 0 <= i < |rows| && HasImage(rows[i], existing) ==>
      r[i].image == "movie/images/m_" + rows[i].title + ".png"
    ensures forall i :: 0 <= i < |rows| && !HasImage(rows[i], existing) ==> r[i] == rows[i]
  {
    seq(|rows|, i requires 0 <= i < |rows| => AssignImage(rows[i], existing))
  }

  /** How many movies have their image file: the final `updated_count`. */
  function CountWithImage(rows: seq<MovieRow>, existing: set<string>): (n: nat)
    ensures n <= |rows|
    ensures n == 0 <==> forall i :: 0 <= i < |rows| ==> !HasImage(rows[i], existing)
    ensures n == |rows| <==> forall i :: 0 <= i < |rows| ==> HasImage(rows[i], existing)
    decreases |rows|
  {
    if rows == [] then 0
    else
      var before := rows[..|rows| - 1];
      CountWithImage(before, existing) + (if HasImage(rows[|rows| - 1], existing) then 1 else 0)
  }

  /** Counting one more row of the table. */
  lemma CountStep(rows: seq<MovieRow>, i: nat, existing: set<string>)
    requires i < |rows|
    ensures CountWithImage(rows[..i + 1], existing) ==
      CountWithImage(rows[..i], existing) + if HasImage(rows[i], existing) then 1 else 0
  {
    assert rows[..i + 1][..i] == rows[..i];
  }

  /** For every movie of the table, whether its image file exists. */
  function ImageFlags(rows: seq<MovieRow>, existing: set<string>): (flags: seq<bool>)
  {
    seq(|rows|, i requires 0 <= i < |rows| => HasImage(rows[i], existing))
  }

  /** The positions of a sequence of flags that are set. */
  function SetPositions(flags: seq<bool>): (s: set<int>)
  {
    set i | 0 <= i < |flags| && flags[i]
  }

  /** Adding one flag at the end adds its position exactly when it is set. */
  lemma SetPositionsSnoc(flags: seq<bool>)
    requires flags != []
    ensures |SetPositions(flags)| ==
      |SetPositions(flags[..|flags| - 1])| + if flags[|flags| - 1] then 1 else 0
  {
    var n := |flags| - 1;
    var earlier := SetPositions(flags[..n]);
    var last: set<int> := if flags[n] then {n} else {};
    assert SetPositions(flags) == earlier + last;
    assert earlier !! last;
  }

  /** `updated_count` is the number of positions in the table whose movie has its image file. */
  lemma {:induction false} CountWithImageIsCardinality(rows: seq<MovieRow>, existing: set<string>)
    ensures CountWithImage(rows, existing) == |SetPositions(ImageFlags(rows, existing))|
    decreases |rows|
  {
    if rows != [] {
      var n := |rows| - 1;
      var flags := ImageFlags(rows, existing);
      CountWithImageIsCardinality(rows[..n], existing);
      assert flags[..n] == ImageFlags(rows[..n], existing);
      SetPositionsSnoc(flags);
    }
  }

  /** Updating a row keeps its title, so a second update finds the same file and stores the same path. */
  lemma AssignImageStable(row: MovieRow, existing: set<string>)
    ensures AssignImage(row, existing).title == row.title
    ensures AssignImage(AssignImage(row, existing), existing) == AssignImage(row, existing)
  {
  }

  /**
   * Running the command again changes nothing further and counts the same movies:
   * the update never touches a title, and the title alone decides the check.
   */
  lemma {:induction false} RerunIsStable(rows: seq<MovieRow>, existing: set<string>)
    ensures AssignImages(AssignImages(rows, existing), existing) == AssignImages(rows, existing)
    ensures CountWithImage(AssignImages(rows, existing), existing) == CountWithImage(rows, existing)
    decreases |rows|
  {
    var once := AssignImages(rows, existing);
    var twice := AssignImages(once, existing);
    assert |twice| == |once|;
    forall i | 0 <= i < |once| ensures twice[i] == once[i] {
      AssignImageStable(rows[i], existing);
    }
    if rows != [] {
      var n := |rows| - 1;
      var before := rows[..n];
      RerunIsStable(before, existing);
      assert once[..n] == AssignImages(before, existing);
      AssignImageStable(rows[n], existing);
      assert HasImage(once[n], existing) == HasImage(rows[n], existing);
    }
  }

  /**
   * The body of the loop for the movie at position i: build the file name and the
   * path, and when the file exists store the relative path in the row.
   */
  method UpdateMovie(movies: array<MovieRow>, i: nat, existing: set<string>) returns (updated: bool)
    requires i < movies.Length
    modifies movies
    ensures updated == HasImage(old(movies[i]), existing)
    ensures movies[i] == AssignImage(old(movies[i]), existing)
    ensures forall j :: 0 <= j < movies.Length && j != i ==> movies[j] == old(movies[j])
  {
    var imageFilename := ImageFileName(movies[i].title);
    var imageFullPath := Join(ImagesFolder, imageFilename);
    updated := imageFullPath in existing;
    if updated {
      var relativePath := Join(RelativeFolder, imageFilename);
      movies[i] := movies[i].(image := relativePath);
    }
  }

  /**
   * `Command.handle`: stop if the images folder is missing; otherwise update, in
   * table order, every movie whose image file exists, and count them.
   */
  method UpdateImagesFromFolder(movies: array<MovieRow>, existing: set<string>)
    returns (outcome: Outcome)
    modifies movies
    ensures ImagesFolder !in existing ==> outcome == FolderMissing && movies[..] == old(movies[..])
    ensures ImagesFolder in existing ==>
      outcome == Finished(CountWithImage(old(movies[..]), existing)) &&
      movies[..] == AssignImages(old(movies[..]), existing)
  {
    if ImagesFolder !in existing {
      return FolderMissing;
    }
    ghost var rows := movies[..];
    ghost var target := AssignImages(rows, existing);
    var updatedCount := 0;
    for i := 0 to movies.Length
      invariant updatedCount == CountWithImage(rows[..i], existing)
      invariant forall j :: 0 <= j < i ==> movies[j] == target[j]
      invariant forall j :: i <= j < movies.Length ==> movies[j] == rows[j]
    {
      CountStep(rows, i, existing);
      var updated := UpdateMovie(movies, i, existing);
      if updated {
        updatedCount := updatedCount + 1;
      }
    }
    assert rows[..movies.Length] == rows;
    assert movies[..] == target;
    outcome := Finished(updatedCount);
  }
}
