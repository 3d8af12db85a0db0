/**
 * The per-document data bag (src/NodeData/DataBag.php): a store of node data
 * objects under integer ids handed out by a counter, the document's page
 * bundle, and the map of transclusion meta tag depths.
 */
module DataBag {
  import opened Wrappers

  /** The document the bag belongs to, as an opaque handle. */
  datatype Document = Document(handle: nat)

  /** One half of a page bundle: an optional id counter and the map of ids to data. */
  datatype BundleData = BundleData(counter: Option<int>, ids: map<string, string>)

  /** The page bundle into which data-parsoid and data-mw are extracted. */
  datatype PageBundle = PageBundle(doc: Document, parsoid: BundleData, mw: BundleData)

  /** The page bundle of a fresh bag: data-parsoid with counter -1 and no ids, data-mw with no ids. */
  function InitialBundle(doc: Document): (b: PageBundle)
    ensures b.doc == doc
    ensures b.parsoid.counter == Some(-1) && b.parsoid.ids == map[]
    ensures b.mw.counter.None? && b.mw.ids == map[]
  {
    PageBundle(doc, BundleData(Some(-1), map[]), BundleData(None, map[]))
  }

  class DataBag<T> {
    /** The data objects, by the id they were stashed under. */
    var dataObject: map<int, T>
    /** The next id to hand out. */
    var nodeId: int
    var pageBundle: PageBundle
    /** Start/end meta tag tree depths keyed by about id. */
    var transclusionMetaTagDepthMap: map<string, int>

    /** Exactly the ids handed out so far, 0 up to the counter, hold data. */
    ghost predicate Valid()
      reads this
    {
      nodeId >= 0 && forall id :: id in dataObject <==> 0 <= id < nodeId
    }

    /** A fresh bag: no data, the counter at 0, the initial page bundle and no meta depths. */
    constructor(doc: Document)
      ensures Valid()
      ensures dataObject == map[] && nodeId == 0
      ensures pageBundle == InitialBundle(doc)
      ensures transclusionMetaTagDepthMap == map[]
    {
      dataObject := map[];
      nodeId := 0;
      pageBundle := InitialBundle(doc);
      transclusionMetaTagDepthMap := map[];
    }

    method GetPageBundle() returns (b: PageBundle)
      ensures b == pageBundle
    {
      b := pageBundle;
    }

    /** Replaces the page bundle and nothing else. */
    method SetPageBundle(b: PageBundle)
      modifies this
      ensures pageBundle == b
      ensures dataObject == old(dataObject) && nodeId == old(nodeId)
      ensures transclusionMetaTagDepthMap == old(transclusionMetaTagDepthMap)
    {
      pageBundle := b;
    }

    /**
     * The data stashed under id, or None (PHP's null) for an id without data;
     * in a valid bag that is exactly an id that was never handed out.
     */
    method GetObject(id: int) returns (r: Option<T>)
      ensures r.Some? <==> id in dataObject
      ensures r.Some? ==> r.value == dataObject[id]
      ensures Valid() ==> (r.None? <==> id < 0 || id >= nodeId)
    {
      if id in dataObject {
        r := Some(dataObject[id]);
      } else {
        r := None;
      }
    }

    /**
     * Stores d under the current counter value, which it returns, and advances
     * the counter by one: the id is new, every other id keeps its data, and the
     * page bundle and meta depths are untouched.
     */
    method StashObject(d: T) returns (id: int)
      requires Valid()
      modifies this
      ensures Valid()
      ensures id == old(nodeId) && nodeId == old(nodeId) + 1
      ensures id !in old(dataObject)
      ensures dataObject == old(dataObject)[id := d]
      ensures pageBundle == old(pageBundle)
      ensures transclusionMetaTagDepthMap == old(transclusionMetaTagDepthMap)
    {
      id := nodeId;
      nodeId := nodeId + 1;
      dataObject := dataObject[id := d];
    }
  }
}
