/** What aiscore_test_scrape.py adds to the shared matcher and scanner: its own configuration
    (TestScrapeConfig in AiScoreScan) and a second polling loop started from the top of the page
    when the first one finds nothing. */
module AiScoreTestScrape {
  import opened Wrappers
  import opened AiScoreScan

  /** What `find_and_open_match` ends with after both attempts: the link of the first polling
      loop when it is usable, else that of the second. */
  function RetryTarget(q: Query, first: seq<Round>, second: seq<Round>): Option<string> {
    var h := ActiveScanResult(TestScrapeConfig, q, first).href;
    if Truthy(h) then h else ActiveScanResult(TestScrapeConfig, q, second).href
  }

  /** `find_and_open_match`: scan, and when that yields nothing scroll back to the top and scan
      once more. `first` and `second` are the polls each attempt sees. */
  method FindAndOpenMatch(q: Query, first: seq<Round>, second: seq<Round>) returns (found: bool, target: Option<string>, attempts: nat)
    ensures target == RetryTarget(q, first, second)
    ensures attempts == if Truthy(ActiveScanResult(TestScrapeConfig, q, first).href) then 1 else 2
    ensures found <==> Truthy(target)
    ensures found ==> (exists i :: ScannedAt(TestScrapeConfig, Reader(q), first, i, target))
                      || (exists i :: ScannedAt(TestScrapeConfig, Reader(q), second, i, target))
  {
    var scans, scrolls;
    target, scans, scrolls := ActiveScan(TestScrapeConfig, Reader(q), first);
    attempts := 1;
    ActiveScanSound(TestScrapeConfig, Reader(q), first, 0, -1, 0);
    if !(target.Some? && target.value != "") {
      target, scans, scrolls := ActiveScan(TestScrapeConfig, Reader(q), second);
      attempts := 2;
      ActiveScanSound(TestScrapeConfig, Reader(q), second, 0, -1, 0);
    }
    found := target.Some? && target.value != "";
  }
}
