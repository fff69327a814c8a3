/** Decoding of a repository metadata document (`repomd.xml`) into a map from data type to
    record, as `checkRepoMD` does once the XML library has filled the `Data` field of its
    `xmlTree`. */
module Metadata {
  import opened Common
  import opened Timestamp

  /** One element of the `Data` field as the XML library hands it over: its `type` attribute,
      its `checksum` element, the `href` of its `location` element and its `timestamp` value. */
  datatype DataEntry = DataEntry(dataType: string, checksum: string, href: string, timestamp: real)

  /** `RepoMD`: what the synchroniser keeps of one data type. */
  datatype RepoMd = RepoMd(checksum: string, timestamp: Time, location: string)

  /** The zero `RepoMD` a failed map lookup yields in Go. */
  const ZeroRepoMd: RepoMd := RepoMd("", Zero, "")

  /** The decoded metadata: one record per data type. Go's nil map is the empty map here. */
  type Index = map<string, RepoMd>

  /** The XML library: decodes a document into its entries or fails with a message. */
  type Unmarshal = Bytes -> Result<seq<DataEntry>, string>

  /** The record built from one entry. */
  function Record(e: DataEntry): (r: RepoMd)
    ensures r.checksum == e.checksum && r.location == e.href
    ensures Normalized(r.timestamp) && Nanos(r.timestamp) == (e.timestamp * 1000000000.0).Floor
  {
    RepoMd(e.checksum, FromSeconds(e.timestamp), e.href)
  }

  /** The data types the entries mention. */
  function Types(entries: seq<DataEntry>): set<string> {
    set i | 0 <= i < |entries| :: entries[i].dataType
  }

  /** Entry `i` is the last one of its data type. */
  predicate LastOfType(entries: seq<DataEntry>, i: int)
    requires 0 <= i < |entries|
  {
    forall j | i < j < |entries| :: entries[j].dataType != entries[i].dataType
  }

  /** Appending an entry adds its data type to the mentioned types. */
  lemma TypesSnoc(init: seq<DataEntry>, last: DataEntry)
    ensures Types(init + [last]) == Types(init) + {last.dataType}
  {
    var entries := init + [last];
    forall t | t in Types(entries) ensures t in Types(init) + {last.dataType} {
      var i :| 0 <= i < |entries| && entries[i].dataType == t;
      if i < |init| { assert init[i] == entries[i]; }
    }
    forall t | t in Types(init) ensures t in Types(entries) {
      var i :| 0 <= i < |init| && init[i].dataType == t;
      assert entries[i] == init[i];
    }
    assert entries[|init|] == last;
  }

  /** An entry that is last of its type stays last once a later entry is dropped. */
  lemma LastOfTypeInit(init: seq<DataEntry>, last: DataEntry, i: int)
    requires 0 <= i < |init| && LastOfType(init + [last], i)
    ensures LastOfType(init, i)
  {
    var entries := init + [last];
    forall j | i < j < |init| ensures init[j].dataType != init[i].dataType {
      assert init[j] == entries[j] && init[i] == entries[i];
    }
  }

  /** The map-building loop: entries are stored in document order, so a later entry of the same
      type overwrites an earlier one. */
  function BuildIndex(entries: seq<DataEntry>): (db: Index)
    ensures db.Keys == Types(entries)
    ensures forall i | 0 <= i < |entries| && LastOfType(entries, i) ::
              db[entries[i].dataType] == Record(entries[i])
  {
    if |entries| == 0 then map[]
    else
      var init := entries[..|entries| - 1];
      var last := entries[|entries| - 1];
      assert entries == init + [last];
      TypesSnoc(init, last);
      var db := BuildIndex(init)[last.dataType := Record(last)];
      assert forall i | 0 <= i < |entries| && LastOfType(entries, i) ::
               db[entries[i].dataType] == Record(entries[i]) by {
        forall i | 0 <= i < |entries| && LastOfType(entries, i)
          ensures db[entries[i].dataType] == Record(entries[i])
        {
          if i < |init| {
            LastOfTypeInit(init, last, i);
            assert entries[i] == init[i];
          }
        }
      }
      db
  }

  /** Every data type has exactly one record in the map, the one of its last entry. */
  lemma {:induction false} EveryTypeHasItsLastRecord(entries: seq<DataEntry>, t: string)
    requires t in Types(entries)
    ensures exists i | 0 <= i < |entries| :: entries[i].dataType == t && LastOfType(entries, i)
                                             && BuildIndex(entries)[t] == Record(entries[i])
  {
    var last := entries[|entries| - 1];
    if last.dataType == t {
      assert LastOfType(entries, |entries| - 1);
    } else {
      var init := entries[..|entries| - 1];
      assert entries == init + [last];
      TypesSnoc(init, last);
      EveryTypeHasItsLastRecord(init, t);
      var i :| 0 <= i < |init| && init[i].dataType == t && LastOfType(init, i)
               && BuildIndex(init)[t] == Record(init[i]);
      assert entries[i] == init[i];
      assert LastOfType(entries, i);
    }
  }

  /** `checkRepoMD`: an empty document is "no metadata yet" and gives the empty map without
      consulting the XML library; otherwise a decoding failure is a parse error and a decoded
      document gives the map of its entries. */
  function CheckRepoMd(data: Bytes, unmarshal: Unmarshal): (r: Result<Index, Error>)
    ensures |data| == 0 ==> r == Success(map[])
    ensures |data| > 0 && unmarshal(data).Failure? ==> r == Failure(Parse(unmarshal(data).error))
    ensures |data| > 0 && unmarshal(data).Success? ==>
              && r.Success?
              && r.value.Keys == Types(unmarshal(data).value)
              && forall i | 0 <= i < |unmarshal(data).value| && LastOfType(unmarshal(data).value, i) ::
                   r.value[unmarshal(data).value[i].dataType] == Record(unmarshal(data).value[i])
  {
    if |data| == 0 then Success(map[])
    else
      match unmarshal(data)
      case Failure(msg) => Failure(Parse(msg))
      case Success(entries) => Success(BuildIndex(entries))
  }

  /** The local record used in the staleness test: the stored one, or the zero record. */
  function LocalRecord(md: Index, dataType: string): (r: RepoMd)
    ensures dataType !in md ==> r == ZeroRepoMd
    ensures dataType in md ==> r == md[dataType]
  {
    if dataType in md then md[dataType] else ZeroRepoMd
  }
}
