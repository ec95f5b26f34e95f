/** The upload filter: a file name is accepted when the text after its last '.',
    lowercased, is one of a fixed set of extensions. */
module Uploads {
  import opened Wrappers

  /** Extensions an uploaded file may have, in lower case. */
  const AllowedExtensions: set<string> := {"pdf", "doc", "docx", "txt", "png", "jpg"}

  /** Lower case of one character: 'A'..'Z' become 'a'..'z', every other character is kept. */
  function LowerChar(c: char): (r: char)
    ensures r == '.' <==> c == '.'
    ensures 'A' <= c <= 'Z' ==> 'a' <= r <= 'z' && r as int - 'a' as int == c as int - 'A' as int
    ensures !('A' <= c <= 'Z') ==> r == c
  {
    if 'A' <= c <= 'Z' then (c as int + 32) as char else c
  }

  /** Lower case of a string, character by character. */
  function Lower(s: string): (r: string)
    ensures |r| == |s|
    ensures forall i :: 0 <= i < |s| ==> r[i] == LowerChar(s[i])
  {
    if s == [] then [] else [LowerChar(s[0])] + Lower(s[1..])
  }

  /** The text after the last '.', or None when the name has no '.'. */
  function Extension(name: string): (ext: Option<string>)
    ensures ext.None? <==> '.' !in name
    ensures ext.Some? ==> |ext.value| < |name| && name[|name| - |ext.value| - 1] == '.'
    ensures ext.Some? ==> ext.value == name[|name| - |ext.value|..] && '.' !in ext.value
  {
    if name == [] then None
    else if name[|name| - 1] == '.' then Some([])
    else
      match Extension(name[..|name| - 1])
      case None => None
      case Some(e) => Some(e + [name[|name| - 1]])
  }

  /** Whether an uploaded file name is accepted. */
  predicate AllowedFile(filename: string)
  {
    '.' in filename && Lower(Extension(filename).value) in AllowedExtensions
  }

  /** No character after position `k` is a '.'. */
  predicate NoDotAfter(name: string, k: int)
  {
    forall j :: 0 <= j < |name| && k < j ==> name[j] != '.'
  }

  /** A '.' followed by no other '.' is the last one: the extension is the text after it. */
  lemma {:induction false} LastDotDeterminesExtension(name: string, k: int)
    requires 0 <= k < |name| && name[k] == '.' && NoDotAfter(name, k)
    ensures Extension(name) == Some(name[k + 1..])
  {
    var n := |name|;
    if k < n - 1 {
      var init := name[..n - 1];
      LastDotDeterminesExtension(init, k);
      assert init[k + 1..] + [name[n - 1]] == name[k + 1..];
    }
  }

  /** The filter in words: some '.' in the name is followed by no other '.',
      and the lower-cased text after it is an allowed extension. */
  lemma AllowedFileMeaning(filename: string)
    ensures AllowedFile(filename) <==>
      exists k :: 0 <= k < |filename| && filename[k] == '.' && NoDotAfter(filename, k)
                  && Lower(filename[k + 1..]) in AllowedExtensions
  {
    if AllowedFile(filename) {
      var ext := Extension(filename).value;
      var k := |filename| - |ext| - 1;
      assert filename[k + 1..] == ext;
      forall j | k < j < |filename| ensures filename[j] != '.' {
        assert filename[j] == ext[j - k - 1];
      }
    }
    if k :| 0 <= k < |filename| && filename[k] == '.' && NoDotAfter(filename, k)
           && Lower(filename[k + 1..]) in AllowedExtensions {
      LastDotDeterminesExtension(filename, k);
    }
  }

  /** A name without a '.' is always rejected. */
  lemma NoDotRejected(filename: string)
    requires '.' !in filename
    ensures !AllowedFile(filename)
  {
  }

  /** Lowering commutes with dropping the last character. */
  lemma LowerInit(s: string)
    requires s != []
    ensures Lower(s)[..|s| - 1] == Lower(s[..|s| - 1])
  {
  }

  /** Lowering commutes with appending a character. */
  lemma LowerSnoc(s: string, c: char)
    ensures Lower(s + [c]) == Lower(s) + [LowerChar(c)]
  {
  }

  /** Lowering a name moves no '.', and lowers the text after the last one. */
  lemma {:induction false} ExtensionOfLower(name: string)
    ensures Extension(Lower(name)).Some? == Extension(name).Some?
    ensures Extension(name).Some? ==> Extension(Lower(name)).value == Lower(Extension(name).value)
  {
    if name != [] {
      var n := |name|;
      var init := name[..n - 1];
      var low := Lower(name);
      LowerInit(name);
      assert low[n - 1] == LowerChar(name[n - 1]);
      if name[n - 1] != '.' {
        ExtensionOfLower(init);
        assert Extension(low) == match Extension(Lower(init)) case None => None case Some(e) => Some(e + [low[n - 1]]);
        if Extension(init).Some? {
          LowerSnoc(Extension(init).value, name[n - 1]);
        }
      }
    }
  }

  /** The filter ignores case: two names that lower to the same text are both accepted or both rejected. */
  lemma AllowedFileIgnoresCase(f: string, g: string)
    requires Lower(f) == Lower(g)
    ensures AllowedFile(f) == AllowedFile(g)
  {
    ExtensionOfLower(f);
    ExtensionOfLower(g);
  }

  /** A lower-case allowed extension is accepted. */
  lemma AcceptsPdf()
    ensures AllowedFile("essay.pdf")
  {
    LastDotDeterminesExtension("essay.pdf", 5);
    assert "essay.pdf"[6..] == "pdf";
    assert Lower("pdf") == "pdf";
  }

  /** The extension is compared after lowering, so upper case is accepted. */
  lemma AcceptsUpperCase()
    ensures AllowedFile("Final.DOCX")
  {
    LastDotDeterminesExtension("Final.DOCX", 5);
    assert "Final.DOCX"[6..] == "DOCX";
    assert Lower("DOCX") == "docx";
  }

  /** A name that is only a dot and an extension is accepted. */
  lemma AcceptsBareExtension()
    ensures AllowedFile(".txt")
  {
    LastDotDeterminesExtension(".txt", 0);
    assert ".txt"[1..] == "txt";
    assert Lower("txt") == "txt";
  }

  /** Only the last extension counts. */
  lemma RejectsDoubleExtension()
    ensures !AllowedFile("notes.pdf.exe")
  {
    LastDotDeterminesExtension("notes.pdf.exe", 9);
    assert "notes.pdf.exe"[10..] == "exe";
    assert Lower("exe") == "exe";
  }

  /** An extension outside the set is rejected, even a common one. */
  lemma RejectsJpeg()
    ensures !AllowedFile("photo.jpeg")
  {
    LastDotDeterminesExtension("photo.jpeg", 5);
    assert "photo.jpeg"[6..] == "jpeg";
    assert Lower("jpeg") == "jpeg";
  }
}
