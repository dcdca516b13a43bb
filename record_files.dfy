/**
  Where the repository keeps each loan application: one file per application
  under the repository root, named after the application number with the
  `.loan` extension, and the `.loan` filter `getNextId` lists them with.
*/
module RecordFiles {
  import opened JavaNumbers

  const FILE_EXTENSION: string := ".loan"

  predicate EndsWith(s: string, suffix: string) {
    |suffix| <= |s| && s[|s| - |suffix|..] == suffix
  }

  /**
    `java.io.File.getName`: the last component of a path, the text after its
    final '/'. `java.io.File` drops a trailing '/' from its path, which this
    function does not; record paths never end in '/'.
  */
  function GetName(path: string): (name: string)
    ensures '/' !in name
    ensures EndsWith(path, name)
  {
    if path == [] || path[|path| - 1] == '/' then []
    else
      var name := GetName(path[..|path| - 1]) + [path[|path| - 1]];
      assert path[|path| - |name|..] == path[..|path| - 1][|path| - |name|..] + [path[|path| - 1]];
      name
  }

  /** The name is the whole text after the final '/': the path has a '/' just before it, or no more text. */
  lemma {:induction false} GetNameIsLastComponent(path: string)
    ensures var name := GetName(path);
      |name| < |path| ==> path[|path| - |name| - 1] == '/'
    decreases |path|
  {
    if path != [] && path[|path| - 1] != '/' {
      GetNameIsLastComponent(path[..|path| - 1]);
    }
  }

  lemma {:induction false} GetNameAfterSeparator(dir: string, name: string)
    requires '/' !in name
    ensures GetName(dir + "/" + name) == name
    decreases |name|
  {
    if name != [] {
      var front := name[..|name| - 1];
      GetNameAfterSeparator(dir, front);
      var path := dir + "/" + name;
      assert path[..|path| - 1] == dir + "/" + front;
      assert name == front + [name[|name| - 1]];
    }
  }

  /**
    `fileFromApplication`: the path of the record file of an application,
    `root + "/" + applicationNo + ".loan"`. Its name within the root carries
    the `.loan` extension, so the listing filter always accepts it.
  */
  function FileFromApplication(root: string, applicationNo: Long): (path: string)
    ensures GetName(path) == Decimal(applicationNo) + FILE_EXTENSION
    ensures EndsWith(GetName(path), FILE_EXTENSION)
  {
    var name := Decimal(applicationNo) + FILE_EXTENSION;
    assert '/' !in name by {
      forall i | 0 <= i < |name| ensures name[i] != '/' {
        if i >= |Decimal(applicationNo)| {
          assert name[i] == FILE_EXTENSION[i - |Decimal(applicationNo)|];
        }
      }
    }
    GetNameAfterSeparator(root, name);
    root + "/" + name
  }

  /** Two applications never share a record file. */
  lemma FileFromApplicationInjective(root: string, a: Long, b: Long)
    ensures FileFromApplication(root, a) == FileFromApplication(root, b) ==> a == b
  {
    if FileFromApplication(root, a) == FileFromApplication(root, b) {
      var nameA, nameB := Decimal(a) + FILE_EXTENSION, Decimal(b) + FILE_EXTENSION;
      assert nameA == nameB;
      assert Decimal(a) == nameA[..|nameA| - |FILE_EXTENSION|];
      assert Decimal(b) == nameB[..|nameB| - |FILE_EXTENSION|];
      DecimalInjective(a, b);
    }
  }

  /** The files of the root for the application numbers `ids`. */
  function Listing(root: string, ids: set<Long>): (files: set<string>)
    ensures forall n :: n in ids ==> FileFromApplication(root, n) in files
    ensures forall f :: f in files ==> EndsWith(GetName(f), FILE_EXTENSION)
  {
    set n | n in ids :: FileFromApplication(root, n)
  }

  /** `listFiles` with the filter of `getNextId`: the files whose name ends in `.loan`. */
  function LoanFiles(files: set<string>): (loanFiles: set<string>)
    ensures loanFiles <= files
    ensures forall f :: f in files && EndsWith(GetName(f), FILE_EXTENSION) ==> f in loanFiles
    ensures forall f :: f in loanFiles ==> EndsWith(GetName(f), FILE_EXTENSION)
  {
    set f | f in files && EndsWith(GetName(f), FILE_EXTENSION)
  }

  /** An injective naming of the ids gives as many names as ids. */
  lemma {:induction false} InjectiveImageSize(ids: set<Long>, name: Long -> string)
    requires forall a, b :: name(a) == name(b) ==> a == b
    ensures |set n | n in ids :: name(n)| == |ids|
    decreases ids
  {
    if ids != {} {
      var n :| n in ids;
      var rest := ids - {n};
      InjectiveImageSize(rest, name);
      var before := set m | m in rest :: name(m);
      assert name(n) !in before;
      assert (set m | m in ids :: name(m)) == before + {name(n)};
    }
  }

  lemma ListingSize(root: string, ids: set<Long>)
    ensures |Listing(root, ids)| == |ids|
  {
    var name := (n: Long) => FileFromApplication(root, n);
    forall a: Long, b: Long ensures name(a) == name(b) ==> a == b {
      FileFromApplicationInjective(root, a, b);
    }
    InjectiveImageSize(ids, name);
    assert Listing(root, ids) == set n | n in ids :: name(n);
  }

  /** Counting the `.loan` files of the root counts the stored applications. */
  lemma ListingCount(root: string, ids: set<Long>)
    ensures |LoanFiles(Listing(root, ids))| == |ids|
  {
    assert LoanFiles(Listing(root, ids)) == Listing(root, ids);
    ListingSize(root, ids);
  }

  /**
    `files.length` in `getNextId`: how many files `listFiles` returns through
    the `.loan` filter when the root holds the record files of `ids`.
  */
  function LoanFileCount(root: string, ids: set<Long>): (count: nat)
    ensures count == |ids|
  {
    ListingCount(root, ids);
    |LoanFiles(Listing(root, ids))|
  }
}
