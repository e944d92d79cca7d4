/**
 * IFC model files: how an uploaded file is named and stored, and how a
 * stored file is deleted. The upload directory is the database's `ifcDir`,
 * the set of file names in it.
 */
module IfcFiles {
  import opened Common
  import opened Text
  import opened Records
  import opened Ordering
  import opened Backend

  /** The public path prefix of stored models. */
  const URL_DIR := "/uploads/ifc"

  /** A character `[a-zA-Z0-9.-]` keeps. */
  predicate SafeChar(c: char)
  {
    ('a' <= c <= 'z') || ('A' <= c <= 'Z') || ('0' <= c <= '9') || c == '.' || c == '-'
  }

  /**
   * The UTF-16 code units of a character: two for one beyond the Basic
   * Multilingual Plane, one otherwise.
   */
  function Units(c: char): nat
  {
    if c as int > 0xFFFF then 2 else 1
  }

  /** The length JavaScript gives a text: its count of UTF-16 code units. */
  function Utf16Length(s: string): nat
  {
    if |s| == 0 then 0 else Units(s[0]) + Utf16Length(s[1..])
  }

  /**
   * `fileName.replace(/[^a-zA-Z0-9.-]/g, '_')`. The pattern has no `u` flag,
   * so it matches code units: a character outside the Basic Multilingual
   * Plane (two code units) becomes "__".
   */
  function Sanitize(name: string): (r: string)
    ensures |r| >= |name|
    ensures forall i :: 0 <= i < |r| ==> SafeChar(r[i]) || r[i] == '_'
  {
    if |name| == 0 then "" else Replaced(name[0]) + Sanitize(name[1..])
  }

  /** What the replacement leaves of one character: itself when safe, else one '_' per code unit. */
  function Replaced(c: char): (r: string)
    ensures SafeChar(c) ==> r == [c]
    ensures !SafeChar(c) ==> |r| == Units(c) && forall i :: 0 <= i < |r| ==> r[i] == '_'
  {
    if SafeChar(c) then [c] else seq(Units(c), _ => '_')
  }

  /** Sanitising keeps the JavaScript length of the name: one '_' per replaced code unit. */
  lemma {:induction false} SanitizeKeepsLength(name: string)
    ensures |Sanitize(name)| == Utf16Length(name)
    ensures Utf16Length(Sanitize(name)) == Utf16Length(name)
  {
    if |name| > 0 {
      SanitizeKeepsLength(name[1..]);
      Utf16LengthOfSafe(Sanitize(name));
    } else {
      assert Sanitize(name) == "";
    }
  }

  /** A text of safe characters and '_' has one code unit per character. */
  lemma {:induction false} Utf16LengthOfSafe(s: string)
    requires forall i :: 0 <= i < |s| ==> SafeChar(s[i]) || s[i] == '_'
    ensures Utf16Length(s) == |s|
  {
    if |s| > 0 {
      Utf16LengthOfSafe(s[1..]);
    }
  }

  /** A text of safe characters and '_' is kept by sanitising. */
  lemma {:induction false} SanitizeKeepsSafeText(s: string)
    requires forall i :: 0 <= i < |s| ==> SafeChar(s[i]) || s[i] == '_'
    ensures Sanitize(s) == s
  {
    if |s| > 0 {
      SanitizeKeepsSafeText(s[1..]);
      if !SafeChar(s[0]) {
        assert Replaced(s[0]) == [s[0]];
      }
      assert s == [s[0]] + s[1..];
    }
  }

  /** A sanitised name has only safe characters and '_' (so no '/'), and sanitising again changes nothing. */
  lemma SanitizeSafe(name: string)
    ensures forall i :: 0 <= i < |Sanitize(name)| ==> SafeChar(Sanitize(name)[i]) || Sanitize(name)[i] == '_'
    ensures '/' !in Sanitize(name)
    ensures Sanitize(Sanitize(name)) == Sanitize(name)
  {
    var r := Sanitize(name);
    forall i | 0 <= i < |r| ensures r[i] != '/' {
      assert SafeChar(r[i]) || r[i] == '_';
    }
    SanitizeKeepsSafeText(r);
  }

  /** A name made only of safe characters is kept as it is. */
  lemma SanitizeKeepsSafeNames(name: string)
    requires forall i :: 0 <= i < |name| ==> SafeChar(name[i])
    ensures Sanitize(name) == name
  {
    SanitizeKeepsSafeText(name);
  }

  /** Sanitising works character by character: the sanitised parts of a name join into the sanitised name. */
  lemma {:induction false} SanitizeAppend(a: string, b: string)
    ensures Sanitize(a + b) == Sanitize(a) + Sanitize(b)
  {
    SplitFirst(a, b);
    if |a| > 0 {
      SanitizeAppend(a[1..], b);
      SanitizeAppendStep(a[0], a[1..], b);
    }
  }

  /** A text joined to another, seen from its first character. */
  lemma SplitFirst(a: string, b: string)
    ensures |a| == 0 ==> a + b == b
    ensures |a| > 0 ==> a == [a[0]] + a[1..] && a + b == [a[0]] + (a[1..] + b)
  {
  }

  /** One step of `SanitizeAppend`: putting a character in front of the first part. */
  lemma SanitizeAppendStep(c: char, t: string, b: string)
    requires Sanitize(t + b) == Sanitize(t) + Sanitize(b)
    ensures Sanitize([c] + (t + b)) == Sanitize([c] + t) + Sanitize(b)
  {
    SanitizeCons(c, t + b);
    SanitizeCons(c, t);
    JoinAssociates(Replaced(c), Sanitize(t), Sanitize(b));
  }

  lemma JoinAssociates(x: string, y: string, z: string)
    ensures x + (y + z) == (x + y) + z
  {
  }

  /** Sanitising a name that starts with `c`. */
  lemma SanitizeCons(c: char, rest: string)
    ensures Sanitize([c] + rest) == Replaced(c) + Sanitize(rest)
  {
    assert ([c] + rest)[1..] == rest;
  }

  /**
   * Within the Basic Multilingual Plane every character keeps its place:
   * a safe character stays where it is and every other one becomes '_'.
   */
  lemma {:induction false} SanitizeBmpPerPosition(name: string)
    requires forall i :: 0 <= i < |name| ==> name[i] as int <= 0xFFFF
    ensures |Sanitize(name)| == |name|
    ensures forall i :: 0 <= i < |name| ==>
      Sanitize(name)[i] == if SafeChar(name[i]) then name[i] else '_'
  {
    if |name| > 0 {
      SanitizeBmpPerPosition(name[1..]);
      var head := Replaced(name[0]);
      assert |head| == 1;
      var r := Sanitize(name);
      assert r == head + Sanitize(name[1..]);
      forall i | 0 <= i < |name|
        ensures r[i] == if SafeChar(name[i]) then name[i] else '_'
      {
        if i > 0 {
          assert r[i] == Sanitize(name[1..])[i - 1];
          assert name[i] == name[1..][i - 1];
        }
      }
    }
  }

  /** A character outside the Basic Multilingual Plane is replaced by two '_', one per code unit. */
  lemma AstralCharBecomesTwoUnderscores(c: char)
    requires c as int > 0xFFFF
    ensures Sanitize([c]) == "__"
  {
    assert !SafeChar(c);
    assert [c][1..] == "";
  }

  /** `${Date.now()}_${sanitised}`: the name on disk. */
  function UniqueName(timestamp: nat, name: string): (r: string)
    ensures |r| == |NatToString(timestamp)| + 1 + |Sanitize(name)|
    ensures r[|r| - |Sanitize(name)|..] == Sanitize(name)
  {
    NatToString(timestamp) + "_" + Sanitize(name)
  }

  /** The unique name is never empty and never holds a '/'. */
  lemma UniqueNameIsPlain(timestamp: nat, name: string)
    ensures UniqueName(timestamp, name) != "" && '/' !in UniqueName(timestamp, name)
  {
    SanitizeSafe(name);
    var t := NatToString(timestamp);
    assert forall c :: c in t ==> IsDigit(c);
  }

  /** The leading run of digits of a text. */
  function DigitPrefix(s: string): (r: string)
    ensures AllDigits(r)
  {
    if |s| == 0 || !IsDigit(s[0]) then "" else [s[0]] + DigitPrefix(s[1..])
  }

  lemma {:induction false} DigitPrefixOf(a: string, rest: string)
    requires AllDigits(a) && (|rest| == 0 || !IsDigit(rest[0]))
    ensures DigitPrefix(a + rest) == a
  {
    if |a| > 0 {
      assert (a + rest)[1..] == a[1..] + rest;
      DigitPrefixOf(a[1..], rest);
    }
  }

  /** The digits a unique name starts with are the timestamp. */
  lemma UniqueNameTimestamp(t: nat, n: string)
    ensures DigitPrefix(UniqueName(t, n)) == NatToString(t)
  {
    var rest := "_" + Sanitize(n);
    assert UniqueName(t, n) == NatToString(t) + rest;
    DigitPrefixOf(NatToString(t), rest);
  }

  /** Uploads at different times get different names: the name determines the timestamp. */
  lemma UniqueNamesDiffer(t1: nat, t2: nat, n1: string, n2: string)
    ensures UniqueName(t1, n1) == UniqueName(t2, n2) ==> t1 == t2
  {
    UniqueNameTimestamp(t1, n1);
    UniqueNameTimestamp(t2, n2);
    if UniqueName(t1, n1) == UniqueName(t2, n2) {
      NatToStringInjective(t1, t2);
    }
  }

  /** The path stored and returned for a model: `/uploads/ifc/<unique name>`. */
  function StoredPath(unique: string): string
  {
    URL_DIR + "/" + unique
  }

  /** The delete step finds the upload's file again: the base name of the stored path is the name on disk. */
  lemma StoredPathFindsFile(timestamp: nat, name: string)
    ensures Basename(StoredPath(UniqueName(timestamp, name))) == UniqueName(timestamp, name)
  {
    UniqueNameIsPlain(timestamp, name);
    BasenameOfJoin(URL_DIR, UniqueName(timestamp, name));
  }

  /** What an upload answers. */
  datatype UploadAnswer = UploadAnswer(success: bool, fileId: int, filePath: string)

  /**
   * handleIfcUpload: writes the file under its unique name, records the
   * sanitised name, the stored path, the building (null when empty) and the
   * size, and answers the new id and the same stored path. `timestamp`
   * stands for `Date.now()`.
   */
  method HandleIfcUpload(db: Database, fileSize: nat, fileName: string, edificacao: Option<string>,
                         uploadedBy: int, timestamp: nat)
    returns (answer: UploadAnswer)
    modifies db`ifcFiles, db`nextIfcFileId, db`ifcDir
    ensures var unique := UniqueName(timestamp, fileName);
      && db.ifcDir == old(db.ifcDir) + {unique}
      && db.ifcFiles == old(db.ifcFiles) + [IfcFileRecord(old(db.nextIfcFileId), Sanitize(fileName), StoredPath(unique),
                                                         if Truthy(edificacao) then edificacao else None,
                                                         uploadedBy, fileSize)]
      && answer == UploadAnswer(true, old(db.nextIfcFileId), StoredPath(unique))
    ensures db.nextIfcFileId == old(db.nextIfcFileId) + 1
    ensures answer.filePath == db.ifcFiles[|db.ifcFiles| - 1].filePath
    ensures Basename(answer.filePath) in db.ifcDir
  {
    var sanitized := Sanitize(fileName);
    var unique := NatToString(timestamp) + "_" + sanitized;
    db.ifcDir := db.ifcDir + {unique};
    var path := URL_DIR + "/" + unique;
    var id := db.nextIfcFileId;
    db.ifcFiles := db.ifcFiles + [IfcFileRecord(id, sanitized, path, if Truthy(edificacao) then edificacao else None,
                                                uploadedBy, fileSize)];
    db.nextIfcFileId := id + 1;
    StoredPathFindsFile(timestamp, fileName);
    answer := UploadAnswer(true, id, path);
  }

  /** The first record with the id (`limit 1`). */
  function FindIfcFile(files: seq<IfcFileRecord>, id: int): (r: Option<IfcFileRecord>)
    ensures r.None? <==> forall k :: 0 <= k < |files| ==> files[k].id != id
    ensures r.Some? ==> r.value in files && r.value.id == id
  {
    if |files| == 0 then None
    else if files[0].id == id then Some(files[0])
    else FindIfcFile(files[1..], id)
  }

  /**
   * deleteIfcFile: a missing record counts as deleted and nothing changes.
   * Otherwise the file named by the base name of the stored path is removed
   * from the upload directory unless the disk refuses (`diskFails`: locked,
   * no permission or another error, all only logged), and the records with
   * the id are deleted. The answer is always true.
   */
  method DeleteIfcFile(db: Database, fileId: int, diskFails: bool) returns (ok: bool)
    modifies db`ifcFiles, db`ifcDir
    ensures ok
    ensures FindIfcFile(old(db.ifcFiles), fileId).None? ==>
      db.ifcFiles == old(db.ifcFiles) && db.ifcDir == old(db.ifcDir)
    ensures FindIfcFile(old(db.ifcFiles), fileId).Some? ==>
      && db.ifcFiles == Filter(old(db.ifcFiles), (f: IfcFileRecord) => f.id != fileId)
      && db.ifcDir == if diskFails then old(db.ifcDir)
                      else old(db.ifcDir) - {Basename(FindIfcFile(old(db.ifcFiles), fileId).value.filePath)}
  {
    var found := FindIfcFile(db.ifcFiles, fileId);
    if found.None? {
      return true;
    }
    var fileName := Basename(found.value.filePath);
    if !diskFails {
      db.ifcDir := db.ifcDir - {fileName};
    }
    db.ifcFiles := Filter(db.ifcFiles, (f: IfcFileRecord) => f.id != fileId);
    ok := true;
  }

  /** After a delete no record with the id is left, and the other records are kept. */
  lemma DeleteRemovesRecord(files: seq<IfcFileRecord>, fileId: int)
    ensures forall f :: f in Filter(files, (f: IfcFileRecord) => f.id != fileId) <==> f in files && f.id != fileId
    ensures FindIfcFile(Filter(files, (f: IfcFileRecord) => f.id != fileId), fileId).None?
  {
    var r := Filter(files, (f: IfcFileRecord) => f.id != fileId);
    forall k | 0 <= k < |r| ensures r[k].id != fileId {
      assert r[k] in r;
    }
  }

  /** Uploading and then deleting the new record (with a cooperative disk) leaves the directory without the file. */
  lemma UploadThenDeleteRemovesFile(dir: set<string>, timestamp: nat, name: string)
    ensures (dir + {UniqueName(timestamp, name)}) - {Basename(StoredPath(UniqueName(timestamp, name)))}
      == dir - {UniqueName(timestamp, name)}
  {
    StoredPathFindsFile(timestamp, name);
  }
}
