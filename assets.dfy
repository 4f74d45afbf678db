/**
  The asset entity: a named tradable item with descriptive metadata, and the
  list of exchanges on which it is traded. Both are plain records with
  default values and a `ToString` rendering.
 */
module Assets {
  import opened Wrappers
  import opened Strings

  /** Where an asset is traded: the exchange and the asset's short name there. */
  datatype AssetOnXchgInfo = AssetOnXchgInfo(xchgName: string, assetName: string)

  /** The stored record. `id` is the store key; 0 asks the store for a fresh one. */
  datatype Asset = Asset(
    id: int,
    name: string,
    longName: string,
    marketsInfo: seq<AssetOnXchgInfo>,
    urls: seq<string>,
    note: string)

  /** `new AssetOnXchgInfo()`: both names default to the empty string. */
  function NewAssetOnXchgInfo(): (m: AssetOnXchgInfo)
    ensures m.xchgName == "" && m.assetName == ""
  {
    AssetOnXchgInfo("", "")
  }

  /** `new Asset()`: id 0, empty strings and empty lists. */
  function NewAsset(): (a: Asset)
    ensures a.id == 0
    ensures a.name == "" && a.longName == "" && a.note == ""
    ensures a.marketsInfo == [] && a.urls == []
  {
    Asset(0, "", "", [], [], "")
  }

  /** `AssetOnXchgInfo.ToString`: exchange name, `::`, asset name. */
  function XchgInfoToString(m: AssetOnXchgInfo): (r: string)
    ensures |r| == |m.xchgName| + 2 + |m.assetName|
    ensures r[..|m.xchgName|] == m.xchgName
    ensures r[|m.xchgName|..|m.xchgName| + 2] == "::"
    ensures r[|m.xchgName| + 2..] == m.assetName
  {
    m.xchgName + "::" + m.assetName
  }

  /** Reads a rendering back: the exchange name runs up to the first `:`. */
  function ParseXchgInfo(s: string): Option<AssetOnXchgInfo> {
    var x := TakeUntil(s, ':');
    if |x| + 2 <= |s| && s[|x|..|x| + 2] == "::" then
      Some(AssetOnXchgInfo(x, s[|x| + 2..]))
    else
      None
  }

  /** The rendering loses nothing as long as the exchange name holds no `:`. */
  lemma XchgInfoRoundTrip(m: AssetOnXchgInfo)
    requires ':' !in m.xchgName
    ensures ParseXchgInfo(XchgInfoToString(m)) == Some(m)
  {
    var s := XchgInfoToString(m);
    assert s == m.xchgName + [':'] + (":" + m.assetName);
    TakeUntilPrefix(m.xchgName, ':', ":" + m.assetName);
    var n := |m.xchgName|;
    assert s[n..n + 2] == "::";
    assert s[n + 2..] == m.assetName;
  }

  /** Each market rendered with its own `ToString`. */
  function MarketStrings(markets: seq<AssetOnXchgInfo>): (r: seq<string>)
    ensures |r| == |markets|
  {
    seq(|markets|, i requires 0 <= i < |markets| => XchgInfoToString(markets[i]))
  }

  /** `Asset.ToString`: five labelled fields; markets joined by `:::`,
      urls by `::`. The id is not part of it. */
  function AssetToString(a: Asset): (r: string)
    ensures |r| >= 36 + |a.name| + |a.longName| + |a.note|
    ensures r[..6 + |a.name|] == "Name:" + a.name + " "
    ensures r[|r| - 6 - |a.note|..] == " Note:" + a.note
  {
    var head := "Name:" + a.name;
    var middle := " LongName:" + a.longName
      + " Markets:" + Join(":::", MarketStrings(a.marketsInfo))
      + " Urls:" + Join("::", a.urls);
    var tail := " Note:" + a.note;
    assert |middle| >= 25 + |a.longName| && middle[0] == ' ';
    assert (head + middle + tail)[..|head| + 1] == head + [middle[0]];
    assert (head + middle + tail)[|head| + |middle|..] == tail;
    head + middle + tail
  }

  /** Two assets that differ only in their id render identically. */
  lemma AssetToStringIgnoresId(a: Asset, b: Asset)
    requires a.(id := 0) == b.(id := 0)
    ensures AssetToString(a) == AssetToString(b)
  {
    assert a.name == b.name && a.longName == b.longName && a.note == b.note;
    assert a.marketsInfo == b.marketsInfo && a.urls == b.urls;
  }

  /** A name without a space can be read back from the rendering: it runs
      from after `Name:` to the first space. */
  lemma AssetToStringRecoversName(a: Asset)
    requires ' ' !in a.name
    ensures |AssetToString(a)| >= 5 && AssetToString(a)[..5] == "Name:"
    ensures TakeUntil(AssetToString(a)[5..], ' ') == a.name
  {
    var r, n := AssetToString(a), |a.name|;
    assert r[..6 + n] == "Name:" + a.name + " ";
    assert r[5..] == a.name + [' '] + r[6 + n..];
    TakeUntilPrefix(a.name, ' ', r[6 + n..]);
  }

  /** The length of a rendering: the 36 characters of the labels plus the
      fields, the market and url texts and their separators. */
  lemma AssetToStringLength(a: Asset)
    ensures |AssetToString(a)| ==
      36 + |a.name| + |a.longName| + |a.note|
      + TotalLength(MarketStrings(a.marketsInfo))
      + (if |a.marketsInfo| == 0 then 0 else 3 * (|a.marketsInfo| - 1))
      + TotalLength(a.urls)
      + (if |a.urls| == 0 then 0 else 2 * (|a.urls| - 1))
  {
    JoinLength(":::", MarketStrings(a.marketsInfo));
    JoinLength("::", a.urls);
  }

  /** A fresh asset renders as its five labels with nothing after them. */
  lemma NewAssetToString()
    ensures AssetToString(NewAsset()) == "Name: LongName: Markets: Urls: Note:"
  {
    assert NewAsset() == Asset(0, "", "", [], [], "");
    assert MarketStrings([]) == [];
    assert Join(":::", []) == "" && Join("::", []) == "";
  }
}
