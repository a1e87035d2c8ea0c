/** The stand-alone ingestion script carries its own copy of `slugify_path`, written
    with the same chain of calls as the module's. Only that copy is modelled here; the
    script's top-level loop over the blob container is I/O. */
module DiScript {
  import opened Text
  import DiModule

  /** `slugify_path(p, max_len=200)` of the script. */
  function SlugifyPath(p: string, maxLen: int): string
  {
    var s := Strip(p);
    var s := ReplaceChar(ReplaceChar(ReplaceChar(ReplaceChar(s, '/', '_'), '\\', '_'), '?', '_'), '#', '_');
    var s := SubRuns(s, DiModule.IsSlugChar, '-');
    StripBy(Slice(s, maxLen), DiModule.IsSlugEdge)
  }

  /** The script's copy computes the module's function on every input. */
  lemma SlugifyPathAgrees(p: string, maxLen: int)
    ensures SlugifyPath(p, maxLen) == DiModule.SlugifyPath(p, maxLen)
  {
  }

  /** The script's slug uses only `[A-Za-z0-9._-]`, fits a non-negative `max_len`, and has no
      '-', '_' or '.' at either end. */
  lemma SlugifyPathShape(p: string, maxLen: int)
    ensures var r := SlugifyPath(p, maxLen);
      && (forall c :: c in r ==> DiModule.IsSlugChar(c))
      && (maxLen >= 0 ==> |r| <= maxLen)
      && (r == [] || (!DiModule.IsSlugEdge(r[0]) && !DiModule.IsSlugEdge(r[|r| - 1])))
  {
    SlugifyPathAgrees(p, maxLen);
  }

  /** Slugifying the script's slug again with the same non-negative `max_len` changes nothing. */
  lemma SlugifyPathIdempotent(p: string, maxLen: int)
    requires maxLen >= 0
    ensures SlugifyPath(SlugifyPath(p, maxLen), maxLen) == SlugifyPath(p, maxLen)
  {
    SlugifyPathAgrees(p, maxLen);
    SlugifyPathAgrees(SlugifyPath(p, maxLen), maxLen);
    DiModule.SlugifyPathIdempotent(p, maxLen);
  }
}
