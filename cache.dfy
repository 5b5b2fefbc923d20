/** The face cache (`images`, a dictionary from perceptual hash to Face) as
    the bulk loader `loadState` fills it. */
module Cache {
  import opened Model
  import opened Ascii

  /** The cache key an ALL_STATE image is stored under. */
  function KeyOf(j: JsImage): Hash {
    EncodeIgnore(j.hash)
  }

  function FaceOf(j: JsImage): Face {
    Face(j.representation, j.identity)
  }

  /** The keys an ALL_STATE image list writes. */
  function LoadedKeys(js: seq<JsImage>): set<Hash> {
    set i | 0 <= i < |js| :: KeyOf(js[i])
  }

  /** The cache after `self.images[h] = Face(...)` for every image of `js`,
      in list order, starting from `m`. */
  function Overlay(m: map<Hash, Face>, js: seq<JsImage>): map<Hash, Face>
    decreases |js|
  {
    if js == [] then m
    else Overlay(m, js[..|js| - 1])[KeyOf(js[|js| - 1]) := FaceOf(js[|js| - 1])]
  }

  /** Loading keeps every old key and adds exactly the keys of the list. */
  lemma {:induction false} OverlayKeys(m: map<Hash, Face>, js: seq<JsImage>)
    ensures Overlay(m, js).Keys == m.Keys + LoadedKeys(js)
  {
    if js != [] {
      var init := js[..|js| - 1];
      OverlayKeys(m, init);
      assert LoadedKeys(js) == LoadedKeys(init) + {KeyOf(js[|js| - 1])} by {
        forall h | h in LoadedKeys(js) ensures h in LoadedKeys(init) + {KeyOf(js[|js| - 1])} {
          var i :| 0 <= i < |js| && KeyOf(js[i]) == h;
          if i < |js| - 1 { assert init[i] == js[i]; }
        }
        forall h | h in LoadedKeys(init) ensures h in LoadedKeys(js) {
          var i :| 0 <= i < |init| && KeyOf(init[i]) == h;
          assert js[i] == init[i];
        }
      }
    }
  }

  /** An old entry whose key the list does not mention is left as it was. */
  lemma {:induction false} OverlayKeepsOthers(m: map<Hash, Face>, js: seq<JsImage>, h: Hash)
    requires h in m && h !in LoadedKeys(js)
    ensures h in Overlay(m, js) && Overlay(m, js)[h] == m[h]
  {
    if js != [] {
      var init := js[..|js| - 1];
      OverlayKeepsOthers(m, init, h);
      assert KeyOf(js[|js| - 1]) in LoadedKeys(js);
    }
  }

  /** Every listed image is stored; when a key is listed more than once, the
      last image with that key wins. */
  lemma {:induction false} OverlayLastWins(m: map<Hash, Face>, js: seq<JsImage>, i: nat)
    requires i < |js|
    requires forall j :: i < j < |js| ==> KeyOf(js[j]) != KeyOf(js[i])
    ensures KeyOf(js[i]) in Overlay(m, js) && Overlay(m, js)[KeyOf(js[i])] == FaceOf(js[i])
  {
    if i < |js| - 1 {
      var init := js[..|js| - 1];
      assert init[i] == js[i];
      forall j | i < j < |init| ensures KeyOf(init[j]) != KeyOf(init[i]) {
        assert init[j] == js[j];
      }
      OverlayLastWins(m, init, i);
    }
  }

  /** `del self.images[h]` on a present key: the cache shrinks by exactly one
      entry and every other entry stays as it was. */
  lemma RemoveShrinksByOne(m: map<Hash, Face>, h: Hash)
    requires h in m
    ensures |m - {h}| == |m| - 1
    ensures forall k :: k in m && k != h ==> k in m - {h} && (m - {h})[k] == m[k]
  {
    assert (m - {h}).Keys == m.Keys - {h};
  }
}
