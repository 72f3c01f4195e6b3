/** The HTML that SnifferFilter injects into a page: a header script that
    loads the sniffer's JavaScript, and a footer element that carries the
    number of executed queries. The footer is padded with spaces to the
    longest it can be, so the size of the injected text can be fixed ahead
    of time; SnifferFilter caches that size on first use.

    JAVASCRIPT_URI is built from the library's version constants, which are
    not part of this model; it is a field of the filter. */
module SnifferFilterHtml {
  import opened JavaText

  const FooterStart := "<data id=\"jdbc-sniffer\" data-sql-queries=\""
  const FooterEnd := "\"/>"

  const HeaderStart := "<script id=\"jdbc-sniffer-header\" type=\"application/javascript\" data-request-id=\""
  const HeaderMiddle := "\" src=\""
  const HeaderEnd := "\"></script>"

  function Max(a: int, b: int): int { if a < b then b else a }

  /** generateFooterHtml. */
  function FooterHtml(executedQueries: Int32): string {
    FooterStart + Decimal(executedQueries) + FooterEnd
  }

  /** maximumFooterSize: the footer for Integer.MAX_VALUE queries. */
  function MaximumFooterSize(): nat {
    |FooterHtml(IntMax)|
  }

  /** No footer for a non-negative count is longer than the one for
      Integer.MAX_VALUE, whose count takes ten characters. */
  lemma FooterAtMostMaximum(executedQueries: Int32)
    requires 0 <= executedQueries
    ensures |FooterHtml(executedQueries)| <= MaximumFooterSize() == |FooterStart| + 10 + |FooterEnd|
  {
    DecimalLengthAtMostIntMax(executedQueries);
  }

  /** The footer is its two fixed parts around the decimal count. */
  lemma FooterCarriesCount(executedQueries: Int32)
    ensures OccursAt(FooterHtml(executedQueries), Decimal(executedQueries), |FooterStart|)
    ensures StartsWith(FooterHtml(executedQueries), FooterStart)
  {
    OccursBetween(FooterStart, Decimal(executedQueries), FooterEnd);
    assert FooterHtml(executedQueries)[..|FooterStart|] == FooterStart;
  }

  /** generateAndPadFooterHtml: the footer, then spaces up to the maximum
      footer size. */
  method GenerateAndPadFooterHtml(executedQueries: Int32) returns (s: string)
    ensures StartsWith(s, FooterHtml(executedQueries))
    ensures forall i :: |FooterHtml(executedQueries)| <= i < |s| ==> s[i] == ' '
    ensures |s| == Max(|FooterHtml(executedQueries)|, MaximumFooterSize())
    ensures 0 <= executedQueries ==> |s| == MaximumFooterSize()
  {
    var footer := FooterHtml(executedQueries);
    s := footer;
    var i := |s|;
    ghost var maximum := MaximumFooterSize();
    while i < MaximumFooterSize()
      invariant |footer| <= i <= Max(|footer|, maximum)
      invariant |s| == i
      invariant s[..|footer|] == footer
      invariant forall j :: |footer| <= j < |s| ==> s[j] == ' '
      decreases maximum - i
    {
      s := s + " ";
      i := i + 1;
    }
    if 0 <= executedQueries {
      FooterAtMostMaximum(executedQueries);
    }
  }

  /** generateHeaderHtml. */
  function HeaderHtml(contextPath: string, requestId: string, javascriptUri: string): string {
    HeaderStart + requestId + HeaderMiddle + contextPath + javascriptUri + HeaderEnd
  }

  /** The header carries the request id in data-request-id and the script
      address, the context path followed by the script's URI, in src. */
  lemma HeaderCarriesIdAndSource(contextPath: string, requestId: string, javascriptUri: string)
    ensures var h := HeaderHtml(contextPath, requestId, javascriptUri);
            OccursAt(h, requestId, |HeaderStart|)
            && OccursAt(h, contextPath + javascriptUri, |HeaderStart| + |requestId| + |HeaderMiddle|)
  {
    var h := HeaderHtml(contextPath, requestId, javascriptUri);
    var front := HeaderStart + requestId + HeaderMiddle;
    assert h == HeaderStart + requestId + (HeaderMiddle + contextPath + javascriptUri + HeaderEnd);
    OccursBetween(HeaderStart, requestId, HeaderMiddle + contextPath + javascriptUri + HeaderEnd);
    assert h == front + (contextPath + javascriptUri) + HeaderEnd;
    OccursBetween(front, contextPath + javascriptUri, HeaderEnd);
  }

  /** The header's length depends on the request id only through its
      length, so any two random UUIDs give the same size. */
  lemma HeaderLengthIgnoresId(contextPath: string, id1: string, id2: string, javascriptUri: string)
    requires |id1| == |id2|
    ensures |HeaderHtml(contextPath, id1, javascriptUri)| == |HeaderHtml(contextPath, id2, javascriptUri)|
  {
  }

  class SnifferFilter {
    const javascriptUri: string
    /** The cached inject size; zero until first computed. */
    var maximumInjectSize: Int32

    constructor (javascriptUri: string)
      ensures this.javascriptUri == javascriptUri && maximumInjectSize == 0
    {
      this.javascriptUri := javascriptUri;
      maximumInjectSize := 0;
    }

    /** maximumInjectSize: computed in int arithmetic while the cache holds
        zero, from the longest footer and a header for a fresh random
        request id (a parameter here); afterwards the cached value. */
    method MaximumInjectSize(contextPath: string, randomId: string) returns (r: Int32)
      modifies this
      ensures old(maximumInjectSize) != 0 ==> r == old(maximumInjectSize)
      ensures old(maximumInjectSize) == 0 ==>
                r == Wrap32(MaximumFooterSize() + |HeaderHtml(contextPath, randomId, javascriptUri)|)
      ensures maximumInjectSize == r
    {
      if maximumInjectSize == 0 {
        maximumInjectSize := Wrap32(MaximumFooterSize() + |HeaderHtml(contextPath, randomId, javascriptUri)|);
      }
      return maximumInjectSize;
    }
  }

  /** Two calls with different context paths: the second returns the
      size computed by the first. */
  method InjectSizeCached(javascriptUri: string, path1: string, path2: string, id1: string, id2: string)
    returns (first: Int32, second: Int32)
    requires |HeaderHtml(path1, id1, javascriptUri)| <= 1000
    ensures first == MaximumFooterSize() + |HeaderHtml(path1, id1, javascriptUri)|
    ensures second == first
  {
    var filter := new SnifferFilter(javascriptUri);
    first := filter.MaximumInjectSize(path1, id1);
    FooterAtMostMaximum(0);
    second := filter.MaximumInjectSize(path2, id2);
  }
}
