/**
 * Decoding one data line into a Record (bang.c's createRecord and getRecord).
 * The line is split on "," the way strtok does it and the columns that bang.h
 * names are stored into the record as the loop over columns meets them.
 */
module Records {
  import opened Options
  import opened Layout
  import opened CLib

  /** One person or vehicle involved in a collision, as getRecord fills it in. */
  class Record {
    var date: Date
    /** Location code; the C struct keeps it in a char[2], the model keeps the whole token. */
    var location: seq<char>
    var gender: char
    var vehYear: int
    var death: bool

    /** createRecord: the defaults every field has before a line is decoded. */
    constructor ()
      ensures date == Date(0, 0, 0)
      ensures location == []
      ensures gender == ' '
      ensures vehYear == 0
      ensures !death
    {
      date := Date(0, 0, 0);
      location := [];
      gender := ' ';
      vehYear := 0;
      death := false;
    }

    /** The values of the fields, taken together. */
    function Fields(): RecordFields
      reads this
    {
      RecordFields(date, location, gender, vehYear, death)
    }
  }

  datatype RecordFields = RecordFields(date: Date, location: seq<char>, gender: char, vehYear: int, death: bool)

  /** What getRecord has stored once it has visited every column before col. */
  function StoredBefore(tokens: seq<seq<char>>, col: int): RecordFields
    requires |tokens| >= COL_SEX
  {
    RecordFields(
      Date(if col > COL_CYEAR then Strtol(Column(tokens, COL_CYEAR)) else 0,
           if col > COL_MNTH then Strtol(Column(tokens, COL_MNTH)) else 0,
           if col > COL_DAY then Strtol(Column(tokens, COL_DAY)) else 0),
      if col > COL_LOC then Column(tokens, COL_LOC) else [],
      if col > COL_SEX then CharAt(Column(tokens, COL_SEX), 0) else ' ',
      if col > COL_VYEAR then Strtol(Column(tokens, COL_VYEAR)) else 0,
      col > COL_SEV && CharAt(Column(tokens, COL_SEV), 0) == '1')
  }

  /** The token getRecord holds while it visits column col, counting columns from 1. */
  function Column(tokens: seq<seq<char>>, col: int): seq<char>
    requires 1 <= col <= |tokens|
  {
    tokens[col - 1]
  }

  /** strtok hands out the tokens one by one: the current call's token, then the rest. */
  lemma TokenStreamAdvance(tokens: seq<seq<char>>, col: int, token: Option<Split>)
    requires 1 <= col <= |tokens|
    requires TokenStream(token) == tokens[col - 1..]
    ensures token.Some? && token.value.token == tokens[col - 1]
    ensures TokenStream(StrTok(token.value.rest)) == tokens[col..]
  {
    assert tokens[col - 1..] == [tokens[col - 1]] + tokens[col..];
  }

  /** Once strtok has run out, it stays out. */
  lemma TokenStreamExhausted(tokens: seq<seq<char>>, token: Option<Split>)
    requires TokenStream(token) == tokens[|tokens|..]
    ensures token.None?
  {
  }

  /**
   * A line written as its fields joined by commas, none of them empty or
   * holding a NUL, tokenizes back into those fields: GetRecord then reads
   * column c from fields[c - 1].
   */
  lemma LineTokens(fields: seq<seq<char>>)
    requires forall i :: 0 <= i < |fields| ==> fields[i] != [] && ',' !in fields[i] && NUL !in fields[i]
    ensures Tokens(CStr(Join(fields))) == fields
  {
    JoinWithoutNul(fields);
    NoNulIsWholeString(Join(fields));
    TokensOfJoin(fields);
  }

  /** A line holds every column getRecord dereferences. */
  predicate Decodes(line: Line) {
    |Tokens(CStr(line))| >= COL_SEX
  }

  /**
   * getRecord: copy the line, tokenize the copy with strtok, and walk columns
   * 1..COL_COUNT, storing the year, month, day, severity, location, vehicle
   * year and sex columns. Every column up to COL_SEX is dereferenced, so the
   * line must hold at least that many tokens.
   */
  method GetRecord(recLine: Line) returns (record: Record)
    requires Decodes(recLine)
    ensures fresh(record)
    ensures var tokens := Tokens(CStr(recLine));
      && record.date == Date(Strtol(Column(tokens, COL_CYEAR)), Strtol(Column(tokens, COL_MNTH)), Strtol(Column(tokens, COL_DAY)))
      && record.death == (CharAt(Column(tokens, COL_SEV), 0) == '1')
      && record.location == Column(tokens, COL_LOC)
      && record.vehYear == Strtol(Column(tokens, COL_VYEAR))
      && record.gender == CharAt(Column(tokens, COL_SEX), 0)
  {
    record := new Record();
    var line := CStr(recLine);
    ghost var tokens := Tokens(line);
    assert |tokens| >= COL_SEX;
    var token := StrTok(line);
    for col := 1 to COL_COUNT + 1
      invariant col <= |tokens| + 1 ==> TokenStream(token) == tokens[col - 1..]
      invariant col > |tokens| ==> token.None?
      invariant record.Fields() == StoredBefore(tokens, col)
    {
      if col <= |tokens| {
        TokenStreamAdvance(tokens, col, token);
      } else if col == |tokens| + 1 {
        TokenStreamExhausted(tokens, token);
      }
      // The C code dereferences the token only in the columns it stores, all within the first COL_SEX.
      var text := if token.Some? then token.value.token else [];
      assert col <= COL_SEX ==> text == Column(tokens, col);
      if col == COL_CYEAR {
        record.date := record.date.(year := Strtol(text));
      } else if col == COL_MNTH {
        record.date := record.date.(month := Strtol(text));
      } else if col == COL_DAY {
        record.date := record.date.(day := Strtol(text));
      } else if col == COL_SEV {
        record.death := CharAt(text, 0) == '1';
      } else if col == COL_LOC {
        record.location := text;
      } else if col == COL_VYEAR {
        record.vehYear := Strtol(text);
      } else if col == COL_SEX {
        record.gender := CharAt(text, 0);
      }
      assert record.Fields() == StoredBefore(tokens, col + 1);
      // strtok(NULL, ","): continue after the previous token, or stay exhausted.
      token := if token.Some? then StrTok(token.value.rest) else None;
    }
  }
}
