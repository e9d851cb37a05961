/** The `main_library` table (src/models.py): its column registry, the record a CSV
    row becomes, the field converters `__init__` applies to the row's cells, the
    fingerprint `sha`, and `as_dict`. */
module Models {
  import opened Wrappers
  import opened PyStr
  import opened Numbers
  import opened Calendar

  /** A Python value as `json.loads` produces it, or as a column holds it. Dates
      appear only once parsed (by the importer or by the query validator). */
  datatype Value =
    | VNull
    | VBool(b: bool)
    | VInt(i: int)
    | VFloat(x: real)
    | VStr(s: string)
    | VDate(date: Date)
    | VList(items: seq<Value>)
    | VObject(fields: map<string, Value>)

  /** The SQLAlchemy column types the table declares. */
  datatype ColType = IntCol | FloatCol | StrCol | DateCol | BoolCol | StrArrayCol

  /** The Python types columns report (`column.type.python_type`). */
  datatype PyType = TInt | TFloat | TStr | TDate | TBool

  /** Every declared column of `MainLibrary`, by name. `Integer` and `BigInteger` are
      ints, `String` and `Text` are strings, `ARRAY(String)` is a list of strings. */
  const Registry: map<string, ColType> := map[
    "id" := IntCol,
    "book_id" := IntCol,
    "sha" := StrCol,
    "title" := StrCol,
    "author" := StrCol,
    "author_lf" := StrCol,
    "author_adds" := StrCol,
    "isbn" := StrCol,
    "isbn_13" := StrCol,
    "number_of_pages" := IntCol,
    "my_rating" := FloatCol,
    "avg_rating" := FloatCol,
    "publisher" := StrCol,
    "binding" := StrCol,
    "year_pub" := IntCol,
    "og_year_pub" := IntCol,
    "date_read" := DateCol,
    "date_added" := DateCol,
    "tags" := StrArrayCol,
    "tags_with_ranks" := StrArrayCol,
    "status" := StrCol,
    "my_review" := StrCol,
    "spoiler" := BoolCol,
    "private_notes" := StrCol,
    "read_count" := IntCol,
    "owned_copies" := IntCol
  ]

  /** The Python type values of a column are checked against: a list column's item
      type, otherwise the column's own type. */
  function ElementType(c: ColType): (t: PyType)
    ensures c == StrArrayCol ==> t == TStr
    ensures c == IntCol <==> t == TInt
    ensures c == FloatCol <==> t == TFloat
    ensures c == DateCol <==> t == TDate
    ensures c == BoolCol <==> t == TBool
    ensures c == StrCol || c == StrArrayCol <==> t == TStr
  {
    match c
    case IntCol => TInt
    case FloatCol => TFloat
    case StrCol => TStr
    case DateCol => TDate
    case BoolCol => TBool
    case StrArrayCol => TStr
  }

  /** One row of the table, with the values its columns hold. */
  datatype Book = Book(
    id: Option<int>,
    bookId: Option<int>,
    sha: string,
    title: Option<string>,
    author: Option<string>,
    authorLf: Option<string>,
    authorAdds: Option<string>,
    isbn: string,
    isbn13: string,
    numberOfPages: Option<int>,
    myRating: Option<real>,
    avgRating: Option<real>,
    publisher: Option<string>,
    binding: Option<string>,
    yearPub: Option<int>,
    ogYearPub: Option<int>,
    dateRead: Option<Date>,
    dateAdded: Option<Date>,
    tags: Option<seq<string>>,
    tagsWithRanks: Option<seq<string>>,
    status: Option<string>,
    myReview: Option<string>,
    spoiler: bool,
    privateNotes: Option<string>,
    readCount: Option<int>,
    ownedCopies: Option<int>)

  function IntValue(o: Option<int>): Value
  {
    if o.Some? then VInt(o.value) else VNull
  }

  function FloatValue(o: Option<real>): Value
  {
    if o.Some? then VFloat(o.value) else VNull
  }

  function StrValue(o: Option<string>): Value
  {
    if o.Some? then VStr(o.value) else VNull
  }

  function DateValue(o: Option<Date>): Value
  {
    if o.Some? then VDate(o.value) else VNull
  }

  function StrListValue(o: Option<seq<string>>): Value
  {
    if o.Some? then VList(seq(|o.value|, k requires 0 <= k < |o.value| => VStr(o.value[k]))) else VNull
  }

  /** `getattr(book, column)` for a declared column, grouped by the column's type. */
  function Field(b: Book, column: string): Value
    requires column in Registry
  {
    match Registry[column]
    case IntCol => IntValue(IntField(b, column))
    case FloatCol => FloatValue(if column == "my_rating" then b.myRating else b.avgRating)
    case StrCol => StrField(b, column)
    case DateCol => DateValue(if column == "date_read" then b.dateRead else b.dateAdded)
    case BoolCol => VBool(b.spoiler)
    case StrArrayCol => StrListValue(if column == "tags" then b.tags else b.tagsWithRanks)
  }

  /** The integer attributes. */
  function IntField(b: Book, column: string): Option<int>
  {
    if column == "id" then b.id
    else if column == "book_id" then b.bookId
    else if column == "number_of_pages" then b.numberOfPages
    else if column == "year_pub" then b.yearPub
    else if column == "og_year_pub" then b.ogYearPub
    else if column == "read_count" then b.readCount
    else b.ownedCopies
  }

  /** The text attributes; `sha` and the two ISBNs are never NULL. */
  function StrField(b: Book, column: string): Value
  {
    if column == "sha" then VStr(b.sha)
    else if column == "isbn" then VStr(b.isbn)
    else if column == "isbn_13" then VStr(b.isbn13)
    else StrValue(
      if column == "title" then b.title
      else if column == "author" then b.author
      else if column == "author_lf" then b.authorLf
      else if column == "author_adds" then b.authorAdds
      else if column == "publisher" then b.publisher
      else if column == "binding" then b.binding
      else if column == "status" then b.status
      else if column == "my_review" then b.myReview
      else b.privateNotes)
  }

  /** A column value fits its declared type: NULL, or a value of that type. */
  predicate Conforms(c: ColType, v: Value)
  {
    match v
    case VNull => true
    case VInt(_) => c == IntCol
    case VFloat(_) => c == FloatCol
    case VStr(_) => c == StrCol
    case VDate(_) => c == DateCol
    case VBool(_) => c == BoolCol
    case VList(items) => c == StrArrayCol && forall k :: 0 <= k < |items| ==> items[k].VStr?
    case VObject(_) => false
  }

  /** `as_dict()`: one entry per declared column, holding that column's value, which
      fits the column's declared type. */
  function AsDict(b: Book): (r: map<string, Value>)
    ensures r.Keys == Registry.Keys
    ensures forall c :: c in r ==> r[c] == Field(b, c) && Conforms(Registry[c], r[c])
  {
    FieldsConform(b);
    map c | c in Registry :: Field(b, c)
  }

  /** Every column of a record holds NULL or a value of the column's declared type. */
  lemma FieldsConform(b: Book)
    ensures forall c :: c in Registry ==> Conforms(Registry[c], Field(b, c))
  {
  }

  /** What goes wrong while a row is turned into a record. */
  datatype ImportError =
    | MissingIsbn                 // `None.replace` in `convert_isbn`
    | MalformedDate(text: string) // `strptime` in `convert_date`

  /** `kwargs.get(key)`. */
  function Cell(row: map<string, string>, key: string): Option<string>
  {
    if key in row then Some(row[key]) else None
  }

  /** `check_int`: the cell itself, unconverted, when it is non-empty text `int()`
      reads as a non-zero number; otherwise None. */
  function CheckInt(cell: Option<string>): (r: Option<string>)
    ensures r == None || r == cell
    ensures r.Some? ==> r.value != "" && ParseInt(r.value).Some? && ParseInt(r.value).value != 0
    ensures cell.Some? && cell.value != "" && ParseInt(cell.value).Some? && ParseInt(cell.value).value != 0
            ==> r == cell
  {
    match cell
    case None => None
    case Some(s) =>
      if s != "" && ParseInt(s).Some? && ParseInt(s).value != 0 then Some(s) else None
  }

  /** `check_float`: the same rule as `check_int`, with `float()`. */
  function CheckFloat(cell: Option<string>): (r: Option<string>)
    ensures r == None || r == cell
    ensures r.Some? ==> r.value != "" && ParseFloat(r.value).Some? && ParseFloat(r.value).value != 0.0
    ensures cell.Some? && cell.value != "" && ParseFloat(cell.value).Some? && ParseFloat(cell.value).value != 0.0
            ==> r == cell
  {
    match cell
    case None => None
    case Some(s) =>
      if s != "" && ParseFloat(s).Some? && ParseFloat(s).value != 0.0 then Some(s) else None
  }

  /** The integer an Integer column stores for the text `check_int` kept. */
  function IntColumn(cell: Option<string>): (r: Option<int>)
    ensures r.Some? ==> r.value != 0
    ensures r.Some? <==> CheckInt(cell).Some?
    ensures r.Some? ==> cell.Some? && ParseInt(cell.value) == Some(r.value)
  {
    var kept := CheckInt(cell);
    if kept.Some? then Some(ParseInt(kept.value).value) else None
  }

  /** The number a Float column stores for the text `check_float` kept. */
  function FloatColumn(cell: Option<string>): (r: Option<real>)
    ensures r.Some? ==> r.value != 0.0
    ensures r.Some? <==> CheckFloat(cell).Some?
    ensures r.Some? ==> cell.Some? && ParseFloat(cell.value) == Some(r.value)
  {
    var kept := CheckFloat(cell);
    if kept.Some? then Some(ParseFloat(kept.value).value) else None
  }

  /** `convert_date`: None for a missing or empty cell, the date for `YYYY/MM/DD`
      text, and an error (which nothing catches) for any other text. */
  function ConvertDate(cell: Option<string>): (r: Result<Option<Date>, ImportError>)
    ensures r.Success? && r.value.Some? ==> IsValid(r.value.value)
    ensures r.Success? && r.value.Some? ==> cell.Some? && ParseDate(cell.value) == Some(r.value.value)
    ensures r.Success? && r.value.None? <==> cell.None? || cell == Some("")
    ensures r.Failure? <==> cell.Some? && cell.value != "" && ParseDate(cell.value).None?
  {
    match cell
    case None => Success(None)
    case Some(s) =>
      if s == "" then Success(None)
      else match ParseDate(s)
        case Some(d) => Success(Some(d))
        case None => Failure(MalformedDate(s))
  }

  /** `convert_to_list`: None for a missing or empty cell (not an empty list);
      otherwise the comma-separated pieces, untrimmed, which join back into the cell
      and number one more than its commas. */
  function ConvertToList(cell: Option<string>): (r: Option<seq<string>>)
    ensures r.Some? <==> cell.Some? && cell.value != ""
    ensures r.Some? ==> Join(r.value, ',') == cell.value
    ensures r.Some? ==> |r.value| == Count(cell.value, ',') + 1
    ensures r.Some? ==> forall p :: p in r.value ==> ',' !in p
  {
    match cell
    case None => None
    case Some(s) =>
      if s == "" then None else JoinSplit(s, ','); Some(Split(s, ','))
  }

  /** `convert_boolean`: True only for the exact text "true". */
  function ConvertBoolean(cell: Option<string>): (r: bool)
    ensures r <==> cell.Some? && cell.value == "true"
  {
    cell == Some("true")
  }

  /** `convert_isbn`: the `replace` result is discarded, so the cell comes back as it
      was; a missing cell fails on `None.replace`. */
  function ConvertIsbn(cell: Option<string>): (r: Result<string, ImportError>)
    ensures r.Success? <==> cell.Some?
    ensures r.Success? ==> r.value == cell.value
    ensures r.Failure? ==> r.error == MissingIsbn
  {
    match cell
    case None => Failure(MissingIsbn)
    case Some(s) => Success(s)
  }

  /** `f"{x}"` for a cell: a missing cell is written "None". */
  function Render(cell: Option<string>): string
  {
    if cell.Some? then cell.value else "None"
  }

  /** The text `sha_gen` hashes: the raw book id followed by the raw date-added
      text, with "None" written for a missing cell. */
  function ShaText(bookId: Option<string>, dateAdded: Option<string>): (r: string)
    ensures bookId.Some? && dateAdded.Some? ==> r == bookId.value + dateAdded.value
    ensures bookId.None? ==> |r| >= 4 && r[..4] == "None"
    ensures dateAdded.None? ==> |r| >= 4 && r[|r| - 4..] == "None"
  {
    Render(bookId) + Render(dateAdded)
  }

  /** `sha_gen(book_id, date_added)`; `hash` stands for SHA-1 as hex. */
  function ShaGen(hash: string -> string, bookId: Option<string>, dateAdded: Option<string>): string
  {
    hash(ShaText(bookId, dateAdded))
  }

  /** A date cell `convert_date` accepts. */
  predicate DateCellOk(cell: Option<string>)
  {
    ConvertDate(cell).Success?
  }

  /** A record as `__init__` leaves it: the database assigns `id`; every number it
      stores is non-zero; every date exists; tag lists are never empty. */
  predicate Imported(b: Book)
  {
    && b.id.None?
    && (b.numberOfPages.Some? ==> b.numberOfPages.value != 0)
    && (b.myRating.Some? ==> b.myRating.value != 0.0)
    && (b.avgRating.Some? ==> b.avgRating.value != 0.0)
    && (b.yearPub.Some? ==> b.yearPub.value != 0)
    && (b.ogYearPub.Some? ==> b.ogYearPub.value != 0)
    && (b.readCount.Some? ==> b.readCount.value != 0)
    && (b.ownedCopies.Some? ==> b.ownedCopies.value != 0)
    && (b.dateRead.Some? ==> IsValid(b.dateRead.value))
    && (b.dateAdded.Some? ==> IsValid(b.dateAdded.value))
    && (b.tags.Some? ==> |b.tags.value| >= 1)
    && (b.tagsWithRanks.Some? ==> |b.tagsWithRanks.value| >= 1)
  }

  /** `MainLibrary(**row)`, with the values the columns then store. It fails exactly
      when an ISBN cell is missing or a date cell is malformed, and otherwise keys the
      record by the hash of the raw book id and date-added text. */
  function FromRow(row: map<string, string>, hash: string -> string): (r: Result<Book, ImportError>)
    ensures r.Failure? <==>
              || Cell(row, "ISBN").None? || Cell(row, "ISBN13").None?
              || !DateCellOk(Cell(row, "Date Read")) || !DateCellOk(Cell(row, "Date Added"))
    ensures r.Success? ==> Imported(r.value)
    ensures r.Success? ==> r.value.sha == ShaGen(hash, Cell(row, "Book Id"), Cell(row, "Date Added"))
  {
    var isbn := ConvertIsbn(Cell(row, "ISBN"));
    var isbn13 := ConvertIsbn(Cell(row, "ISBN13"));
    var dateRead := ConvertDate(Cell(row, "Date Read"));
    var dateAdded := ConvertDate(Cell(row, "Date Added"));
    if isbn.Failure? then Failure(isbn.error)
    else if isbn13.Failure? then Failure(isbn13.error)
    else if dateRead.Failure? then Failure(dateRead.error)
    else if dateAdded.Failure? then Failure(dateAdded.error)
    else
      var bookId := Cell(row, "Book Id");
      Success(Book(
        id := None,
        bookId := if bookId.Some? then ParseInt(bookId.value) else None,
        sha := ShaGen(hash, bookId, Cell(row, "Date Added")),
        title := Cell(row, "Title"),
        author := Cell(row, "Author"),
        authorLf := Cell(row, "Author l-f"),
        authorAdds := Cell(row, "Additional Authors"),
        isbn := isbn.value,
        isbn13 := isbn13.value,
        numberOfPages := IntColumn(Cell(row, "Number of Pages")),
        myRating := FloatColumn(Cell(row, "My Rating")),
        avgRating := FloatColumn(Cell(row, "Average Rating")),
        publisher := Cell(row, "Publisher"),
        binding := Cell(row, "Binding"),
        yearPub := IntColumn(Cell(row, "Year Published")),
        ogYearPub := IntColumn(Cell(row, "Original Publication Year")),
        dateRead := dateRead.value,
        dateAdded := dateAdded.value,
        tags := ConvertToList(Cell(row, "Bookshelves")),
        tagsWithRanks := ConvertToList(Cell(row, "Bookshelves with positions")),
        status := Cell(row, "Exclusive Shelf"),
        myReview := Cell(row, "My Review"),
        spoiler := ConvertBoolean(Cell(row, "Spoiler")),
        privateNotes := Cell(row, "Private Notes"),
        readCount := IntColumn(Cell(row, "Read Count")),
        ownedCopies := IntColumn(Cell(row, "Owned Copies"))))
  }

  /** What `__init__` assigns to each attribute: the cell under the column's CSV
      header, through the converter that column uses. */
  lemma FromRowFields(row: map<string, string>, hash: string -> string)
    requires FromRow(row, hash).Success?
    ensures var b := FromRow(row, hash).value;
            && b.id.None?
            && b.bookId == (if Cell(row, "Book Id").Some? then ParseInt(Cell(row, "Book Id").value) else None)
            && b.sha == ShaGen(hash, Cell(row, "Book Id"), Cell(row, "Date Added"))
            && b.title == Cell(row, "Title")
            && b.author == Cell(row, "Author")
            && b.authorLf == Cell(row, "Author l-f")
            && b.authorAdds == Cell(row, "Additional Authors")
            && Some(b.isbn) == Cell(row, "ISBN")
            && Some(b.isbn13) == Cell(row, "ISBN13")
            && b.numberOfPages == IntColumn(Cell(row, "Number of Pages"))
            && b.myRating == FloatColumn(Cell(row, "My Rating"))
            && b.avgRating == FloatColumn(Cell(row, "Average Rating"))
            && b.publisher == Cell(row, "Publisher")
            && b.binding == Cell(row, "Binding")
            && b.yearPub == IntColumn(Cell(row, "Year Published"))
            && b.ogYearPub == IntColumn(Cell(row, "Original Publication Year"))
            && Success(b.dateRead) == ConvertDate(Cell(row, "Date Read"))
            && Success(b.dateAdded) == ConvertDate(Cell(row, "Date Added"))
            && b.tags == ConvertToList(Cell(row, "Bookshelves"))
            && b.tagsWithRanks == ConvertToList(Cell(row, "Bookshelves with positions"))
            && b.status == Cell(row, "Exclusive Shelf")
            && b.myReview == Cell(row, "My Review")
            && b.spoiler == ConvertBoolean(Cell(row, "Spoiler"))
            && b.privateNotes == Cell(row, "Private Notes")
            && b.readCount == IntColumn(Cell(row, "Read Count"))
            && b.ownedCopies == IntColumn(Cell(row, "Owned Copies"))
  {
  }

  // ---------------------------------------------------------------------------
  // Properties of the converters and the fingerprint

  /** `check_int` keeps every non-zero numeral as written. */
  lemma CheckIntKeepsNonZero(n: int)
    requires n != 0
    ensures CheckInt(Some(IntToText(n))) == Some(IntToText(n))
    ensures IntColumn(Some(IntToText(n))) == Some(n)
  {
    ParseIntOfText(n);
  }

  /** `check_int` gives None for a missing cell, "", zero, and text `int()` refuses. */
  lemma CheckIntUnset()
    ensures CheckInt(None) == None
    ensures CheckInt(Some("")) == None
    ensures CheckInt(Some("0")) == None
    ensures CheckInt(Some("abc")) == None
    ensures CheckInt(Some("4.5")) == None
  {
    ParseIntOfText(0);
    assert IntToText(0) == "0";
    TrimTrimmed(NumberBlanks, "abc");
    TrimTrimmed(NumberBlanks, "4.5");
  }

  /** `check_float` keeps every non-zero integer numeral as written, and the column
      stores its value. */
  lemma CheckFloatKeepsNonZero(n: int)
    requires n != 0
    ensures CheckFloat(Some(IntToText(n))) == Some(IntToText(n))
    ensures FloatColumn(Some(IntToText(n))) == Some(n as real)
  {
    ParseFloatOfText(n);
  }

  /** A decimal numeral such as "4.5" is kept too, stored as the number it spells. */
  lemma CheckFloatKeepsDecimal(w: nat, f: nat)
    requires f < 10 && (w > 0 || f > 0)
    ensures CheckFloat(Some(NatToText(w) + "." + [DigitChar(f)])) == Some(NatToText(w) + "." + [DigitChar(f)])
    ensures FloatColumn(Some(NatToText(w) + "." + [DigitChar(f)])) == Some(w as real + f as real / 10.0)
  {
    ParseFloatOnePlace(w, f);
  }

  /** `check_float` gives None for a missing cell, "" and text `float()` refuses. */
  lemma CheckFloatUnset()
    ensures CheckFloat(None) == None
    ensures CheckFloat(Some("")) == None
    ensures CheckFloat(Some("abc")) == None
  {
    var t := "abc";
    TrimTrimmed(NumberBlanks, t);
    assert NumberStrip(t) == t;
    assert !IsDigit(t[0]) && !IsDigit(t[1]) && !IsDigit(t[2]);
    ParseFloatNeedsDigit(t);
  }

  /** `convert_date` returns every valid date written as `YYYY/MM/DD`. */
  lemma ConvertDateRoundTrip(d: Date)
    requires IsValid(d)
    ensures ConvertDate(Some(FormatDate(d))) == Success(Some(d))
  {
    ParseFormatDate(d);
  }

  /** `convert_to_list` splits at every comma and trims nothing: "a, b" gives "a"
      and " b". */
  lemma ConvertToListKeepsSpaces(a: string, b: string)
    requires ',' !in a && ',' !in b
    ensures ConvertToList(Some(a + ", " + b)) == Some([a, " " + b])
  {
    SplitWithoutSeparator(" " + b, ',');
    assert (", " + b)[1..] == " " + b;
    assert Split(", " + b, ',') == [[]] + [" " + b];
    var t := Split(", " + b, ',');
    assert t[0] == [] && t[1..] == [" " + b];
    SplitPrefix(a, ", " + b, ',');
    assert a + ", " + b == a + (", " + b);
    assert Split(a + ", " + b, ',') == [a + []] + [" " + b];
    assert a + [] == a;
    assert [a + []] + [" " + b] == [a, " " + b];
    assert |a + ", " + b| > 0;
    assert ConvertToList(Some(a + ", " + b)) == Some(Split(a + ", " + b, ','));
  }

  /** Text without the separator splits into itself alone. */
  lemma {:induction false} SplitWithoutSeparator(s: string, sep: char)
    requires sep !in s
    ensures Split(s, sep) == [s]
    decreases |s|
  {
    if s != [] {
      SplitWithoutSeparator(s[1..], sep);
      assert [s[0]] + s[1..] == s;
    }
  }

  /** A separator-free prefix is glued onto the first piece of the rest. */
  lemma {:induction false} SplitPrefix(p: string, s: string, sep: char)
    requires sep !in p
    ensures Split(p + s, sep) == [p + Split(s, sep)[0]] + Split(s, sep)[1..]
    decreases |p|
  {
    var tail := Split(s, sep);
    if p == [] {
      assert p + s == s && p + tail[0] == tail[0];
      assert tail == [tail[0]] + tail[1..];
    } else {
      assert p[0] in p;
      assert (p + s)[0] == p[0] && (p + s)[1..] == p[1..] + s;
      SplitPrefix(p[1..], s, sep);
      var rest := Split(p[1..] + s, sep);
      assert rest[0] == p[1..] + tail[0] && rest[1..] == tail[1..];
      assert Split(p + s, sep) == [[p[0]] + rest[0]] + rest[1..];
      assert [p[0]] + (p[1..] + tail[0]) == p + tail[0];
    }
  }

  /** `convert_boolean` is case-sensitive: only "true" is True. */
  lemma ConvertBooleanExamples()
    ensures ConvertBoolean(Some("true"))
    ensures !ConvertBoolean(Some("True")) && !ConvertBoolean(Some("")) && !ConvertBoolean(None)
  {
  }

  /** `convert_isbn` keeps the "=" of a spreadsheet-escaped ISBN. */
  lemma ConvertIsbnKeepsEquals(s: string)
    ensures ConvertIsbn(Some(s)) == Success(s)
    ensures ConvertIsbn(Some("=\"9780060853976\"")).value[0] == '='
  {
  }

  /** The fingerprint is a function of the raw book id and raw date-added cells:
      two rows that agree on both get the same `sha`, whatever else differs. */
  lemma ShaDeterministic(row1: map<string, string>, row2: map<string, string>, hash: string -> string)
    requires Cell(row1, "Book Id") == Cell(row2, "Book Id")
    requires Cell(row1, "Date Added") == Cell(row2, "Date Added")
    requires FromRow(row1, hash).Success? && FromRow(row2, hash).Success?
    ensures FromRow(row1, hash).value.sha == FromRow(row2, hash).value.sha
  {
  }

  predicate IsNumeral(s: string)
  {
    |s| > 0 && forall k :: 0 <= k < |s| ==> IsDigit(s[k])
  }

  /** In a digit book id followed by an accepted date-added cell, the first slash
      sits four characters into the date, with more text after it; an empty cell
      leaves no slash at all. */
  lemma SlashAfterNumeral(id: string, date: string)
    requires IsNumeral(id) && DateCellOk(Some(date))
    ensures date == "" ==> FirstIndex(id + date, '/') == |id + date|
    ensures date != "" ==> FirstIndex(id + date, '/') == |id| + 4 < |id + date|
  {
    var s := id + date;
    assert forall k :: 0 <= k < |id| ==> s[k] == id[k];
    if date != "" {
      assert ParseDate(date).Some?;
      assert forall k :: |id| <= k < |id| + 4 ==> s[k] == date[k - |id|];
      assert s[|id| + 4] == '/';
    } else {
      assert s == id;
    }
  }

  /** For book ids written in digits and date-added cells the importer accepts, the
      hashed text determines the pair: concatenating without a separator loses
      nothing, because an accepted date starts with exactly four digits and a slash. */
  lemma ShaTextInjective(id1: string, date1: string, id2: string, date2: string)
    requires IsNumeral(id1) && IsNumeral(id2)
    requires DateCellOk(Some(date1)) && DateCellOk(Some(date2))
    requires ShaText(Some(id1), Some(date1)) == ShaText(Some(id2), Some(date2))
    ensures id1 == id2 && date1 == date2
  {
    var s := id1 + date1;
    assert s == id2 + date2;
    SlashAfterNumeral(id1, date1);
    SlashAfterNumeral(id2, date2);
    assert |id1| == |id2|;
    assert id1 == s[..|id1|] == id2;
    assert date1 == s[|id1|..] == date2;
  }
}
