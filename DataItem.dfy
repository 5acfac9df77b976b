/**
 * The persisted scan record (`File` in the app) and its value view.
 *
 * `File` is a reference type whose stored fields are assigned by its
 * initialiser; only `folder` is later reassigned, by a folder rename.
 * `Scan` is the value those fields hold at one moment, used to state what
 * the store contains.
 */
module DataItem {
  import opened Optional

  /** Encoded image bytes (the app stores JPEG data). */
  type Bytes = seq<bv8>

  /** A point in time; the model never inspects it beyond equality. */
  type Date = int

  /** The fields of one `File` record, as a value. */
  datatype Scan = Scan(id: string, diagnosis: string, image: Option<Bytes>, date: Date, folder: string)

  class File {
    var id: string
    var diagnosis: string
    var image: Option<Bytes>
    var date: Date
    var folder: string

    /**
     * `File(diagnosis:image:date:folder:)`. The identifier is the output of a
     * UUID generator, passed in as `uuid`. No argument is checked: an empty
     * diagnosis or folder name is stored as given.
     */
    constructor (uuid: string, diagnosis: string, image: Bytes, date: Date, folder: string)
      ensures Value() == Scan(uuid, diagnosis, Some(image), date, folder)
      ensures this.image.Some? && this.image.value == image
    {
      this.id := uuid;
      this.diagnosis := diagnosis;
      this.image := Some(image);
      this.date := date;
      this.folder := folder;
    }

    function Value(): Scan
      reads this
    {
      Scan(id, diagnosis, image, date, folder)
    }
  }

  /** The values held by a sequence of records, position by position. */
  function Values(files: seq<File>): (r: seq<Scan>)
    reads set f | f in files
    ensures |r| == |files|
    ensures forall i :: 0 <= i < |files| ==> r[i] == files[i].Value()
  {
    if files == [] then [] else [files[0].Value()] + Values(files[1..])
  }

  /** The identifiers in use. */
  function Ids(scans: seq<Scan>): set<string> {
    set s | s in scans :: s.id
  }

  /** No two records share an identifier. */
  predicate UniqueIds(scans: seq<Scan>) {
    forall i, j :: 0 <= i < j < |scans| ==> scans[i].id != scans[j].id
  }

  /** Adding a record with an unused identifier keeps identifiers unique. */
  lemma AppendFreshKeepsUnique(scans: seq<Scan>, s: Scan)
    requires UniqueIds(scans) && s.id !in Ids(scans)
    ensures UniqueIds(scans + [s])
  {
    forall i | 0 <= i < |scans| ensures scans[i].id != s.id {
      assert scans[i] in scans;
    }
  }
}
