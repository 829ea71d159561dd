/**
 * Paged directory listing: the server's offset and limit slicing
 * (internal/agent/fileshare.go, handleList) against the client's loop
 * (internal/client/mount.go, mountCachedList).
 */
module Paging {

  datatype Page<T> = Page(entries: seq<T>, total: nat)

  /** The server's answer; limits and offsets of zero or less are ignored. */
  function ListPage<T>(dir: seq<T>, offset: int, limit: int): Page<T> {
    var tail := if offset <= 0 then dir else if offset >= |dir| then [] else dir[offset..];
    Page(if limit > 0 && |tail| > limit then tail[..limit] else tail, |dir|)
  }

  /**
   * The client loop. The directory is what it is at each request: dirs(k) when
   * the k-th page is served. It never holds more than bound entries, and the
   * loop then ends whatever happens to it.
   */
  method ListAll<T>(dirs: nat -> seq<T>, limit: int, bound: nat) returns (all: seq<T>)
    requires forall k :: |dirs(k)| <= bound
    ensures (forall k :: dirs(k) == dirs(0)) ==> all == dirs(0)
    ensures |all| <= bound
  {
    all := [];
    var offset: nat := 0;
    var k: nat := 0;
    while true
      invariant |all| == offset
      invariant k > 0 ==> offset < bound
      invariant offset <= bound
      invariant (forall j :: dirs(j) == dirs(0)) ==> offset <= |dirs(0)| && all == dirs(0)[..offset]
      decreases bound - offset
    {
      var page := ListPage(dirs(k), offset, limit);
      all := all + page.entries;
      if page.total == 0 || offset + |page.entries| >= page.total {
        return;
      }
      offset := offset + |page.entries|;
      k := k + 1;
    }
  }

  /** A page is the stretch of the listing from the offset on, as long as the limit and the listing allow. */
  lemma PageIsWindow<T>(dir: seq<T>, offset: int, limit: int)
    ensures
      var page, start := ListPage(dir, offset, limit), if offset < 0 then 0 else offset;
      && page.total == |dir|
      && (forall i :: 0 <= i < |page.entries| ==> start + i < |dir| && page.entries[i] == dir[start + i])
      && (limit > 0 ==> |page.entries| <= limit)
      && (|page.entries| == limit || start + |page.entries| >= |dir|)
  {
  }
}
