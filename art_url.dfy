/**
 * The art-URL rewrite of background.js, applied to the cover art and to each
 * track's art: `replace(/_10\.(jpg|png)$/, '_0.$1')`, which swaps the
 * thumbnail size suffix `_10` for the original-size suffix `_0`.
 */
module ArtUrl {

  /** The pattern `_10\.(jpg|png)$` matches at the end of `u`. */
  predicate EndsWithThumbnail(u: string) {
    |u| >= 7 && u[|u| - 7..|u| - 3] == "_10." && (u[|u| - 3..] == "jpg" || u[|u| - 3..] == "png")
  }

  /** The rewrite: the match is replaced by `_0.` followed by the captured extension. */
  function FullSizeArtUrl(u: string): string
  {
    if EndsWithThumbnail(u) then u[..|u| - 7] + "_0." + u[|u| - 3..] else u
  }

  /** A URL ending in `_10.jpg` or `_10.png` loses exactly the `1`; what precedes the suffix is kept. */
  lemma RewritesThumbnailSuffix(prefix: string, ext: string)
    requires ext == "jpg" || ext == "png"
    ensures FullSizeArtUrl(prefix + "_10." + ext) == prefix + "_0." + ext
  {
    var u := prefix + "_10." + ext;
    assert u[|u| - 7..|u| - 3] == "_10.";
    assert u[|u| - 3..] == ext;
    assert u[..|u| - 7] == prefix;
  }

  /** Any other URL is returned unchanged, and only those. */
  lemma UnchangedIffNoThumbnailSuffix(u: string)
    ensures FullSizeArtUrl(u) == u <==> !EndsWithThumbnail(u)
  {
    if EndsWithThumbnail(u) {
      var r := FullSizeArtUrl(u);
      assert |r| == |u| - 1;
    }
  }

  /** Applying the rewrite to its own result changes nothing. */
  lemma RewriteIdempotent(u: string)
    ensures FullSizeArtUrl(FullSizeArtUrl(u)) == FullSizeArtUrl(u)
  {
    if EndsWithThumbnail(u) {
      var r := FullSizeArtUrl(u);
      assert r[|r| - 6] == '_';
      assert !EndsWithThumbnail(r) by {
        if |r| >= 7 {
          assert r[|r| - 7..|r| - 3][1] == r[|r| - 6];
        }
      }
    }
  }
}
