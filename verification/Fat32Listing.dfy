/** What the listing of a directory looks like. */
module Fat32Listings {
  import opened Basics
  import opened ShortNames
  import opened Fat32
  import opened Fat32Reader
  import opened PrintfFormat
  import opened DigitStrings
  import opened PrintfMeaning

  /** The string and nothing else. */
  predicate Reads(t: seq<Byte>, s: string) { |t| == |s| && forall i | 0 <= i < |s| :: t[i] == s[i] as int }

  /** Every line has its name from column 2 on, blanks up to column 16, and there the mark of a directory or the size of
      the file in decimal. */
  lemma LineColumns(e: Entry)
    ensures var line, name := Line(e), CString(Format(e[..11]));
      && |name| <= 12 && |line| > 16 && line[2..2 + |name|] == name
      && (forall i | 0 <= i < 16 && !(2 <= i < 2 + |name|) :: line[i] == ' ' as int)
      && if IsDirectory(e) then Reads(line[16..], "<DIR>\r\n")
         else exists size :: line[16..] == size + CRLF && Numeral(size, FileSize(e), 10, "0123456789abcdef")
  {
    hide CString, Format, Text, Numeral, IsDirectory;
    var name := CString(Format(e[..11]));
    NameLength(e[..11]);
    var size := Text(FileSize(e), 10, false);
    TextMeans(FileSize(e), 10, false);
    var end := if IsDirectory(e) then DIR_MARK else size + CRLF;
    assert Line(e) == Fill(0x20, 2) + Column(name, 14) + end;
    assert Line(e)[16..] == end;
    assert Line(e)[2..2 + |name|] == name;
  }

  lemma NameLength(raw: seq<Byte>)
    requires |raw| == 11
    ensures |CString(Format(raw))| <= 12
  {}

  /** A listing prints nothing iff the directory comes to its end mark without a live entry; the note that it is empty
      appears iff it has neither, and the note of an error iff a sector cannot be read. */
  lemma EmptyListing(s: Scan)
    ensures Listing(s) == [] <==> s.live == [] && s.stop == EndMark
    ensures s.live == [] && s.stop == More ==> Reads(Listing(s), "  (empty)\r\n")
    ensures s.live == [] && s.stop == Unreadable ==> Reads(Listing(s), "ls: read error\r\n")
    ensures s.live != [] ==> Listing(s) == Lines(s.live) + if s.stop == Unreadable then READ_ERROR else []
  {
    hide Line, Format;
    if s.live != [] {
      LineColumns(s.live[0]);
    }
  }
}
