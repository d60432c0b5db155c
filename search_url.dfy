/** The search URL that `GetMessages` requests (utils/discord_client.go:175-181).
    The server ID and the query are spliced into the URL verbatim, without
    percent-encoding; the `&offset=` parameter is present only for a non-zero offset. */
module SearchUrl {
  import opened Wrappers
  import opened Decimal

  const SearchHost := "https://discord.com/api/v9/guilds/"
  const SearchPath := "/messages/search?content="
  const OffsetParam := "&offset="

  /** Everything up to and including the query, common to every page of one search. */
  function SearchPrefix(serverID: string, query: string): string {
    SearchHost + serverID + SearchPath + query
  }

  function SearchURL(serverID: string, query: string, offset: int): (url: string)
    ensures |SearchPrefix(serverID, query)| <= |url|
    ensures url[..|SearchPrefix(serverID, query)|] == SearchPrefix(serverID, query)
    ensures offset == 0 <==> |url| == |SearchPrefix(serverID, query)|
  {
    if offset != 0 then
      SearchHost + serverID + SearchPath + query + OffsetParam + IntToDecimal(offset)
    else
      SearchHost + serverID + SearchPath + query
  }

  /** Reads the offset back out of a URL for a known server and query: no
      suffix means offset 0, otherwise the suffix must be `&offset=` and a
      non-zero decimal. */
  function OffsetOf(url: string, serverID: string, query: string): (r: Option<int>)
    ensures r == Some(0) ==> url == SearchPrefix(serverID, query)
  {
    var p := SearchPrefix(serverID, query);
    if |url| < |p| || url[..|p|] != p then None
    else
      var rest := url[|p|..];
      if rest == [] then Some(0)
      else if |rest| <= |OffsetParam| || rest[..|OffsetParam|] != OffsetParam then None
      else
        match ParseInt(rest[|OffsetParam|..])
        case Some(o) => if o != 0 then Some(o) else None
        case None => None
  }

  /** The offset a URL carries can always be recovered from it. */
  lemma OffsetOfSearchURL(serverID: string, query: string, offset: int)
    ensures OffsetOf(SearchURL(serverID, query, offset), serverID, query) == Some(offset)
  {
    var p := SearchPrefix(serverID, query);
    var url := SearchURL(serverID, query, offset);
    if offset != 0 {
      var digits := IntToDecimal(offset);
      assert url == p + OffsetParam + digits;
      var rest := url[|p|..];
      assert rest == OffsetParam + digits;
      assert rest[..|OffsetParam|] == OffsetParam;
      assert rest[|OffsetParam|..] == digits;
      ParseIntToDecimal(offset);
    } else {
      assert url == p;
      assert url[|p|..] == [];
    }
  }

  /** Two requests of one search at different offsets go to different URLs. */
  lemma SearchURLInjective(serverID: string, query: string, o1: int, o2: int)
    requires SearchURL(serverID, query, o1) == SearchURL(serverID, query, o2)
    ensures o1 == o2
  {
    OffsetOfSearchURL(serverID, query, o1);
    OffsetOfSearchURL(serverID, query, o2);
  }

  /** Because the query is not escaped, a query that itself contains
      `&offset=25` requested at offset 0 is the same URL as the plain query
      requested at offset 25. */
  lemma UnescapedQueryCollides(serverID: string)
    ensures SearchURL(serverID, "fries&offset=25", 0) == SearchURL(serverID, "fries", 25)
  {
    assert NatToDecimal(25) == NatToDecimal(2) + [DigitChar(5)];
    assert IntToDecimal(25) == "25";
  }
}
