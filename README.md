# Movie recommendation commands, modelled in Dafny

This project models three Django management commands of a movie-recommendation
demo:

- `movie_recommendations` embeds a prompt, scans the movie table and recommends
  the movie whose stored embedding is most similar to the prompt. A movie whose
  embedding cannot be decoded or compared is skipped. The scan starts from a
  best similarity of -1.
- `movie_embeddings` does the same over a JSON list of movies. It collects
  every similarity in a list and reports the title at `np.argmax` of that list.
  Nothing is caught there.
- `update_images_from_folder` gives every movie whose file
  `media/movie/images/m_<title>.png` exists the image path `movie/images/m_<title>.png`,
  and counts the movies it updated.

Modules:

- `Wrappers`: `Option` and `Result`.
- `PromptText`: the newline replacement that both commands' `get_embedding`
  applies before calling the embedding service. It is
  `movie_recommendations.py:37` and `movie_embeddings.py:52`, and is defined once.
- `Blob`: stored embeddings as bytes, and `np.frombuffer(..., float32)` as
  splitting a buffer into four-byte groups, with the inverse encoding.
- `Recommendations`: the skip-tolerant selection rule (`Select`) and the scan of
  `Command.handle` as a method with a loop (`Recommend`).
- `Embeddings`: the similarity-list loop, the first-maximum `ArgMax`, the command,
  and a lemma relating its rule to the skip-tolerant one.
- `Images`: the path construction, posix `os.path.join`, and the in-place update
  of an array of movie rows.

Inputs that come from outside the program are parameters:

- The cosine-similarity formula is `cos`.
- The prompt embedding enters only through its dimension `promptDim`.
  `np.dot` raises when two vectors have different lengths, so that dimension is
  all that decides whether a score exists.
- The file system is a set `existing` of paths that exist.

Behaviour of the code worth noting:

- `movie_embeddings` has no empty-list guard. An empty list ends with `np.argmax`
  raising (`Failed(EmptyArgmax)`), not with a typed "empty catalog" result.
- A zero-norm vector gives NaN in the code and is not skipped. NaN is not modelled.
- Skipped movies are only written to stderr, not collected and returned.
- The -1 starting value means a movie scoring exactly -1 (or less) is never
  recommended. When no movie scores above -1, the result is "no recommendation"
  even though the table is not empty.

## Model

| member | source | states |
|---|---|---|
| `PromptText.ReplaceNewlines` | DjangoProjectBase/movie/management/commands/movie_recommendations.py:37 | the result has the input's length, every `'\n'` becomes `' '`, every other character stays at its place, and no newline remains |
| `PromptText.ReplaceNewlinesIdempotent` | DjangoProjectBase/movie/management/commands/movie_embeddings.py:52 | normalising twice equals normalising once, and a prompt without newlines is sent unchanged |
| `Blob.Decode` | DjangoProjectBase/movie/management/commands/movie_recommendations.py:63 | decoding succeeds exactly when the byte length is a multiple of 4; it then yields `len/4` elements, element k being bytes 4k..4k+3 |
| `Blob.DecodeEncode` | DjangoProjectBase/movie/management/commands/movie_recommendations.py:63 | the stored bytes of a vector are 4 bytes per element and decode back to that vector |
| `Blob.EncodeDecode` | DjangoProjectBase/movie/management/commands/movie_recommendations.py:63 | a buffer that decodes is exactly the bytes of the vector it decodes to |
| `Recommendations.EntryScore` | DjangoProjectBase/movie/management/commands/movie_recommendations.py:61-67 | a movie is skipped exactly when its blob length is not a multiple of 4 or its vector length differs from the prompt's; otherwise its score is `cos` of the decoded vector |
| `Recommendations.Scores` | DjangoProjectBase/movie/management/commands/movie_recommendations.py:60-64 | one score per movie in table order; entry i is skipped exactly when movie i's blob length is not a multiple of 4 or its vector length differs from the prompt's, and otherwise is `cos` of movie i's decoded vector |
| `Recommendations.Select` | DjangoProjectBase/movie/management/commands/movie_recommendations.py:56-71 | no winner iff no scored entry is above -1, and the score then stays -1; a winner was scored, with exactly the kept score, above -1, at least every other scored entry, and strictly above every scored entry before it |
| `Recommendations.SelectUnique` | DjangoProjectBase/movie/management/commands/movie_recommendations.py:69-71 | any entry that is the first strictly-above--1 maximum is the one the scan keeps, with its score: the selection rule determines the result |
| `Recommendations.SkippedNeverSelected` | DjangoProjectBase/movie/management/commands/movie_recommendations.py:61-67 | an entry that raised is never the winner, and the scan's result is the same as if that entry had scored the sentinel: the scan just goes on past it |
| `Recommendations.Recommend` | DjangoProjectBase/movie/management/commands/movie_recommendations.py:51-78 | an empty table, and only that, reports no movies; "no recommendation" iff no movie scores above -1; a recommendation names the first movie with the greatest score above -1, with that score |
| `Embeddings.ArgMax` | DjangoProjectBase/movie/management/commands/movie_embeddings.py:71-72 | for a non-empty list, a valid index whose value is at least every value and strictly greater than every value before it |
| `Embeddings.Similarities` | DjangoProjectBase/movie/management/commands/movie_embeddings.py:66-69 | succeeds iff every embedding has the prompt's length, giving one score per movie in order, entry i being the score of movie i; otherwise fails at the first movie whose length differs |
| `Embeddings.Recommend` | DjangoProjectBase/movie/management/commands/movie_embeddings.py:66-73 | recommends iff the list is non-empty and every embedding is comparable; the index is valid, the title is that movie's, its score is the maximum, and it is the first maximum; an empty list fails in argmax; a mismatch fails at the first mismatching movie |
| `Embeddings.ArgMaxAgreesWithSelect` | DjangoProjectBase/movie/management/commands/movie_embeddings.py:71-72 | on the same unskipped scores, the skip-tolerant scan picks the argmax position and value when the maximum is above -1, and picks nothing when it is not |
| `Images.Join` | DjangoProjectBase/movie/management/commands/update_images_from_folder.py:25 | posix `os.path.join(a, b)`: an absolute `b` is the result; otherwise the result starts with `a` and ends with `b`, with exactly one `/` inserted when `a` is non-empty and does not already end in `/`, and nothing inserted otherwise |
| `Images.ImageFileName` | DjangoProjectBase/movie/management/commands/update_images_from_folder.py:24 | the name is `m_`, then the title, then `.png`, six characters longer than the title |
| `Images.FullPath` | DjangoProjectBase/movie/management/commands/update_images_from_folder.py:25 | the path checked is the images folder followed directly by the file name |
| `Images.RelativePath` | DjangoProjectBase/movie/management/commands/update_images_from_folder.py:29 | the stored path is `movie/images`, one `/`, then the file name |
| `Images.PathsOfTitle` | DjangoProjectBase/movie/management/commands/update_images_from_folder.py:24-29 | the path checked is `"media/movie/images/m_" + title + ".png"` and the path stored is `"movie/images/m_" + title + ".png"`: both joins are plain concatenations |
| `Images.HasImage` | DjangoProjectBase/movie/management/commands/update_images_from_folder.py:27 | a movie passes the check exactly when `media/movie/images/m_<title>.png` is an existing path |
| `Images.AssignImage` | DjangoProjectBase/movie/management/commands/update_images_from_folder.py:27-30 | the title is kept; a movie whose file exists gets image `movie/images/m_<title>.png`; any other row is returned unchanged |
| `Images.AssignImages` | DjangoProjectBase/movie/management/commands/update_images_from_folder.py:21-31 | the table keeps its length and every title; each movie whose file exists points at `movie/images/m_<title>.png`; every other row is unchanged |
| `Images.CountWithImage` | DjangoProjectBase/movie/management/commands/update_images_from_folder.py:19-32 | the count is at most the number of movies; it is 0 iff no movie has its file, and it equals the number of movies iff all have |
| `Images.CountWithImageIsCardinality` | DjangoProjectBase/movie/management/commands/update_images_from_folder.py:19-32 | the count equals the number of table positions whose movie has its image file |
| `Images.RerunIsStable` | DjangoProjectBase/movie/management/commands/update_images_from_folder.py:21-32 | running the update again changes no movie and counts the same movies |
| `Images.UpdateMovie` | DjangoProjectBase/movie/management/commands/update_images_from_folder.py:24-32 | one iteration: reports whether the movie's file exists, updates exactly that movie as the row-by-row rule says, and touches no other movie |
| `Images.UpdateImagesFromFolder` | DjangoProjectBase/movie/management/commands/update_images_from_folder.py:8-37 | a missing images folder reports so and leaves the table as it was; otherwise the table becomes the row-by-row update and the reported count is the number of movies whose file exists |

## Left out

- The calls to the embedding service (`client.embeddings.create`) are network I/O. The
  prompt's embedding enters as its dimension and as the similarity parameter `cos`.
- Loading `openAI.env`, reading the API key, and the early returns when either is
  missing are configuration I/O.
- The Django ORM: `Movie.objects.all()`, `.exists()` and `.save()`. The table is a
  sequence of rows, or an array of rows where it is updated, and saving is the
  assignment to the row.
- `movie_embeddings` reading its JSON file, and the check that the file exists. The
  movie list is an input.
- `os.path.exists` on the real file system: existence is membership in the set `existing`.
- The cosine-similarity formula (`np.dot`, `np.linalg.norm`) and reading four bytes as
  a float32 are floating-point numerics. Scores are abstract reals, and the float32
  element is kept as its four raw bytes.
- NaN: a zero-norm vector gives NaN and not an exception. How comparisons and `np.argmax`
  treat NaN is not modelled.
- A movie whose `emb` column is null (a `TypeError` in `np.frombuffer`, also skipped) is
  not modelled. `emb` is always a byte string here.
- In `movie_embeddings`, a JSON entry without an `embedding` or `title` key (a `KeyError`)
  is not modelled.
- `visualizar_embeddings.py` (a random pick and printing) is not part of this model. Its
  decode step is `Blob.Decode`.
- The messages written to stdout and stderr, including the `:.4f` formatting of the score.
