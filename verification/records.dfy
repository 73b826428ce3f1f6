/**
  Record assembly of the two detail pages: the header/cell row merge that
  `crawl_prod_info` and `parse_comp_info` share, the parse of the company
  link's `onclick` handler, the dispatch on the number of company
  sub-tables, and the two page readers over already-parsed pages.
 */
module Records {
  import opened Wrappers
  import opened Types
  import opened Text

  /** Field names the crawler looks up or adds. */
  const ItemNoField := "품목보고번호"
  const LicenseField := "인허가번호"
  const CompanyLicenseField := "회사인허가번호"
  const StatusField := "회사상태"
  const AddressField := "회사주소"
  const ReferField := "refer_item_no"

  /** One table row: the stripped texts of its `th` cells and of its `td` cells. */
  datatype Row = Row(headers: seq<string>, cells: seq<string>)

  function Min(a: nat, b: nat): nat
  {
    if a <= b then a else b
  }

  /**
    `{k: v for k, v in zip(keys, values)}`: keys are paired with values up to
    the shorter list, and a key repeated within the row keeps its last value.
   */
  function ZipToMap(keys: seq<string>, values: seq<string>): (m: Fields)
    ensures forall k :: k in m <==> k in keys[..Min(|keys|, |values|)]
    ensures forall j :: 0 <= j < Min(|keys|, |values|) && keys[j] !in keys[j + 1..Min(|keys|, |values|)] ==>
              m[keys[j]] == values[j]
  {
    ZipPrefix(keys, values, Min(|keys|, |values|))
  }

  /** The dictionary built from the first `n` pairs. */
  function ZipPrefix(keys: seq<string>, values: seq<string>, n: nat): (m: Fields)
    requires n <= |keys| && n <= |values|
    ensures forall k :: k in m <==> k in keys[..n]
    ensures forall j :: 0 <= j < n && keys[j] !in keys[j + 1..n] ==> m[keys[j]] == values[j]
    decreases n
  {
    if n == 0 then map[]
    else
      var prev := ZipPrefix(keys, values, n - 1);
      ZipStep(keys, values, n, prev);
      prev[keys[n - 1] := values[n - 1]]
  }

  lemma ZipStep(keys: seq<string>, values: seq<string>, n: nat, prev: Fields)
    requires 0 < n <= |keys| && n <= |values|
    requires forall k :: k in prev <==> k in keys[..n - 1]
    requires forall j :: 0 <= j < n - 1 && keys[j] !in keys[j + 1..n - 1] ==> prev[keys[j]] == values[j]
    ensures forall k :: k in prev[keys[n - 1] := values[n - 1]] <==> k in keys[..n]
    ensures forall j :: 0 <= j < n && keys[j] !in keys[j + 1..n] ==> prev[keys[n - 1] := values[n - 1]][keys[j]] == values[j]
  {
    var m := prev[keys[n - 1] := values[n - 1]];
    assert keys[..n] == keys[..n - 1] + [keys[n - 1]];
    forall j | 0 <= j < n && keys[j] !in keys[j + 1..n] ensures m[keys[j]] == values[j] {
      if j < n - 1 {
        assert keys[j + 1..n] == keys[j + 1..n - 1] + [keys[n - 1]];
      }
    }
  }

  /** The fields one row contributes. */
  function RowFields(row: Row): Fields
  {
    ZipToMap(row.headers, row.cells)
  }

  /** The fields of each row, in row order. */
  function RowMaps(rows: seq<Row>): (fs: seq<Fields>)
    ensures |fs| == |rows| && forall i :: 0 <= i < |rows| ==> fs[i] == RowFields(rows[i])
  {
    seq(|rows|, i requires 0 <= i < |rows| => RowFields(rows[i]))
  }

  /** No two of the first `n` field maps share a field name. */
  ghost predicate DisjointUpTo(fs: seq<Fields>, n: nat)
    requires n <= |fs|
  {
    forall i, j :: 0 <= i < j < n ==> fs[i].Keys !! fs[j].Keys
  }

  /** No two rows contribute the same field name. */
  ghost predicate RowsDisjoint(rows: seq<Row>)
  {
    DisjointUpTo(RowMaps(rows), |rows|)
  }

  /** `acc` holds exactly the fields of the first `n` maps, each with the value its map gives it. */
  ghost predicate MergedUpTo(acc: Fields, fs: seq<Fields>, n: nat)
    requires n <= |fs|
  {
    && (forall k :: k in acc <==> exists i :: 0 <= i < n && k in fs[i])
    && (forall i, k :: 0 <= i < n && k in fs[i] ==> acc[k] == fs[i][k])
  }

  /** `acc` holds exactly the fields of `rows`, each with the value its row gives it. */
  ghost predicate MergedFrom(acc: Fields, rows: seq<Row>)
  {
    MergedUpTo(acc, RowMaps(rows), |rows|)
  }

  lemma MergeStepDisjoint(fs: seq<Fields>, n: nat, acc: Fields)
    requires 0 < n <= |fs|
    requires DisjointUpTo(fs, n - 1) && MergedUpTo(acc, fs, n - 1)
    requires acc.Keys !! fs[n - 1].Keys
    ensures DisjointUpTo(fs, n)
  {
    forall i, j | 0 <= i < j < n ensures fs[i].Keys !! fs[j].Keys {
      if j == n - 1 {
        forall k | k in fs[i] ensures k !in fs[j] {
          assert k in acc;
        }
      }
    }
  }

  lemma MergeStepFields(fs: seq<Fields>, n: nat, acc: Fields)
    requires 0 < n <= |fs|
    requires MergedUpTo(acc, fs, n - 1)
    requires acc.Keys !! fs[n - 1].Keys
    ensures MergedUpTo(acc + fs[n - 1], fs, n)
  {
    var m := acc + fs[n - 1];
    forall k | k in m ensures exists i :: 0 <= i < n && k in fs[i] {
      if k !in acc {
        assert k in fs[n - 1];
      }
    }
  }

  lemma MergeStepCollision(fs: seq<Fields>, n: nat, acc: Fields)
    requires 0 < n <= |fs|
    requires MergedUpTo(acc, fs, n - 1)
    requires !(acc.Keys !! fs[n - 1].Keys)
    ensures !DisjointUpTo(fs, n)
  {
    var k :| k in acc.Keys && k in fs[n - 1].Keys;
    var i :| 0 <= i < n - 1 && k in fs[i];
    assert k in fs[i].Keys && k in fs[n - 1].Keys;
  }

  /**
    The row-by-row merge: each row's fields are asserted disjoint from the
    fields gathered so far before they are added, so the merge succeeds
    exactly when the rows are pairwise disjoint and never overwrites a field.
   */
  function MergeRows(rows: seq<Row>): (r: Result<Fields, Error>)
    ensures r.Success? <==> RowsDisjoint(rows)
    ensures r.Failure? ==> r.error == KeyCollision
    ensures r.Success? ==> MergedFrom(r.value, rows)
  {
    MergePrefix(RowMaps(rows), |rows|)
  }

  /** The merge of the first `n` field maps. */
  function MergePrefix(fs: seq<Fields>, n: nat): (r: Result<Fields, Error>)
    requires n <= |fs|
    ensures r.Success? <==> DisjointUpTo(fs, n)
    ensures r.Failure? ==> r.error == KeyCollision
    ensures r.Success? ==> MergedUpTo(r.value, fs, n)
    decreases n
  {
    if n == 0 then Success(map[])
    else
      match MergePrefix(fs, n - 1)
      case Failure(e) => Failure(e)
      case Success(acc) =>
        if acc.Keys !! fs[n - 1].Keys then
          MergeStepDisjoint(fs, n, acc);
          MergeStepFields(fs, n, acc);
          Success(acc + fs[n - 1])
        else
          MergeStepCollision(fs, n, acc);
          Failure(KeyCollision)
  }

  /** A status token as `strip("'")` leaves it: no whitespace, and no quote at either end. */
  predicate BareToken(s: string)
  {
    Unspaced(s) && (s == [] || (!IsQuote(s[0]) && !IsQuote(s[|s| - 1])))
  }

  /**
    The company status carried by the company link's `onclick` handler: the
    first parenthesised argument list must split into exactly two tokens
    (registration number and status), and the second, with its quotes
    stripped, is the status.
   */
  function ParseOnclick(onclick: string): (r: Result<string, Error>)
    ensures r.Success? ==> BareToken(r.value)
    ensures r.Failure? ==> r.error == OnclickNoMatch || r.error.OnclickArity?
  {
    match FirstGroup(Strip(onclick))
    case None => Failure(OnclickNoMatch)
    case Some(g) => ArgumentStatus(g)
  }

  /** `company_no, company_stat = g.split()` followed by `company_stat.strip("'")`. */
  function ArgumentStatus(g: string): (r: Result<string, Error>)
    ensures r.Failure? <==> |Split(g)| != 2
    ensures r.Failure? ==> r.error == OnclickArity(|Split(g)|)
    ensures r.Success? ==> r.value == StripQuotes(Split(g)[1]) && BareToken(r.value)
  {
    var parts := Split(g);
    if |parts| != 2 then Failure(OnclickArity(|parts|))
    else
      var token := parts[1];
      var inner := TrimStart(token, Quotes);
      var v := TrimEnd(inner, Quotes);
      assert Unspaced(inner) by {
        assert forall i :: 0 <= i < |inner| ==> inner[i] == token[|token| - |inner| + i];
      }
      assert Unspaced(v) by {
        assert forall i :: 0 <= i < |v| ==> v[i] == inner[i];
      }
      Success(v)
  }

  lemma ArgumentsClean(number: string, status: string)
    requires Unspaced(number) && ')' !in number
    requires Unspaced(status) && ')' !in status
    ensures ')' !in number + " '" + status + "'" && '\n' !in number + " '" + status + "'"
  {
    UnspacedHasNoLineBreak(number);
    UnspacedHasNoLineBreak(status);
    var inner := number + " '" + status + "'";
    forall i | 0 <= i < |inner| ensures inner[i] != ')' && inner[i] != '\n' {
      if i < |number| {
        assert inner[i] == number[i];
      } else if |number| + 2 <= i < |number| + 2 + |status| {
        assert inner[i] == status[i - |number| - 2];
      }
    }
  }

  lemma QuotedUnspaced(status: string)
    requires Unspaced(status)
    ensures Unspaced("'" + status + "'")
  {
    var q := "'" + status + "'";
    forall i | 0 <= i < |q| ensures !IsSpace(q[i]) {
      if 0 < i < |q| - 1 {
        assert q[i] == status[i - 1];
      }
    }
  }

  lemma StrippedCall(name: string, inner: string, s: string)
    requires name == [] || !IsSpace(name[0])
    requires s == name + "(" + inner + ")"
    ensures Strip(s) == s
  {
    assert s[|s| - 1] == ')';
    assert s[0] == if name == [] then '(' else name[0];
    StripTrimmed(s);
  }

  lemma GroupOfCall(name: string, inner: string, s: string)
    requires '(' !in name
    requires ')' !in inner && '\n' !in inner
    requires s == name + "(" + inner + ")"
    ensures FirstGroup(s) == Some(inner)
  {
    FirstGroupOf(name, inner, []);
    assert s + [] == s;
  }

  lemma GroupOfStripped(s: string, g: string)
    requires Strip(s) == s && FirstGroup(s) == Some(g)
    ensures ParseOnclick(s) == ArgumentStatus(g)
  {
  }

  lemma SplitPair(a: string, b: string, s: string)
    requires a != [] && Unspaced(a) && b != [] && Unspaced(b)
    requires s == a + " " + b
    ensures Split(s) == [a, b]
  {
    SplitJoin([a, b]);
    assert JoinSpaced([a, b]) == s;
  }

  lemma ArgumentStatusOfSplit(g: string, a: string, b: string)
    requires Split(g) == [a, b]
    ensures ArgumentStatus(g) == Success(StripQuotes(b))
  {
  }

  lemma ArgumentStatusOf(number: string, status: string, inner: string)
    requires number != [] && Unspaced(number)
    requires BareToken(status)
    requires inner == number + " '" + status + "'"
    ensures ArgumentStatus(inner) == Success(status)
  {
    var quoted := "'" + status + "'";
    assert inner == number + " " + quoted;
    QuotedUnspaced(status);
    SplitPair(number, quoted, inner);
    ArgumentStatusOfSplit(inner, number, quoted);
    StripQuotesAround(status);
  }

  /** A handler written as `name(number 'status')` yields back its status. */
  lemma OnclickRoundTrip(name: string, number: string, status: string)
    requires '(' !in name && (name == [] || !IsSpace(name[0]))
    requires number != [] && Unspaced(number) && ')' !in number
    requires BareToken(status) && ')' !in status
    ensures ParseOnclick(name + "(" + number + " '" + status + "')") == Success(status)
  {
    var inner := number + " '" + status + "'";
    var s := name + "(" + inner + ")";
    assert s == name + "(" + number + " '" + status + "')";
    ArgumentsClean(number, status);
    StrippedCall(name, inner, s);
    GroupOfCall(name, inner, s);
    GroupOfStripped(s, inner);
    ArgumentStatusOf(number, status, inner);
  }

  /** The parsed product page. */
  datatype ProdPage = ProdPage(
    mbTables: nat,                  // number of `mb-table` tables: company summary, then product
    companyLink: Option<string>,    // `onclick` of the link in the company table's first cell
    companyAddress: Option<string>, // text of the company table's second cell
    rows: seq<Row>,                 // rows of the product table
    sections: seq<Table>)           // the `col table-sm` tables: licences, collections, ingredients

  /** What `crawl_prod_info` yields: the product record and the files it writes. */
  datatype ProdInfo = ProdInfo(fields: Fields, itemNo: string, docs: seq<(Key, Doc)>)

  /** The directories the product page's sub-tables are written to, in table order. */
  const SectionDirs: seq<Dir> := [Authorize, Collection, Ingredient]

  /** No product row carries the status or address field the company summary adds. */
  ghost predicate NoSummaryFields(rows: seq<Row>)
  {
    forall i :: 0 <= i < |rows| ==> StatusField !in RowFields(rows[i]) && AddressField !in RowFields(rows[i])
  }

  /** Some product row reports the item number. */
  ghost predicate ReportsItemNo(rows: seq<Row>)
  {
    exists i :: 0 <= i < |rows| && ItemNoField in RowFields(rows[i])
  }

  /** What `crawl_prod_info` checks of the product rows and sub-tables. */
  ghost predicate TablesReadable(rows: seq<Row>, sections: seq<Table>)
  {
    RowsDisjoint(rows) && |sections| in {2, 3} && NoSummaryFields(rows) && ReportsItemNo(rows)
  }

  /** Everything `crawl_prod_info` checks, stated over the page rather than over its merge. */
  ghost predicate ProdPageReadable(page: ProdPage)
  {
    && page.mbTables == 2
    && page.companyLink.Some? && ParseOnclick(page.companyLink.value).Success?
    && page.companyAddress.Some?
    && TablesReadable(page.rows, page.sections)
  }

  /** The merged rows' fields plus the company status and address, every row's value kept. */
  ghost predicate JoinedFields(status: string, address: string, rows: seq<Row>, fields: Fields)
  {
    && MergeRows(rows).Success?
    && fields.Keys == MergeRows(rows).value.Keys + {StatusField, AddressField}
    && fields[StatusField] == status
    && fields[AddressField] == address
    && (forall i, k :: 0 <= i < |rows| && k in RowFields(rows[i]) ==> fields[k] == RowFields(rows[i])[k])
  }

  /**
    The product record built from a company summary and the product rows:
    the joined fields, the item number the rows report, and one parquet file
    per sub-table named after that item number.
   */
  ghost predicate ProdRecord(roman: string, status: string, address: string, rows: seq<Row>, sections: seq<Table>, info: ProdInfo)
  {
    && JoinedFields(status, address, rows, info.fields)
    && ItemNoField in info.fields && info.itemNo == info.fields[ItemNoField]
    && |sections| <= |SectionDirs|
    && info.docs == SectionDocs(roman + "_" + info.itemNo, sections)
  }

  lemma FieldNamesDistinct()
    ensures StatusField != AddressField && ItemNoField != StatusField && ItemNoField != AddressField
    ensures LicenseField != ReferField
  {
    assert StatusField[2] != AddressField[2];
    assert |ItemNoField| != |StatusField| && |ItemNoField| != |AddressField|;
    assert |LicenseField| != |ReferField|;
  }

  /** A field name is in the merge exactly when some row contributes it. */
  lemma MergedField(acc: Fields, rows: seq<Row>, k: string)
    requires MergedFrom(acc, rows)
    ensures k in acc <==> exists i :: 0 <= i < |rows| && k in RowFields(rows[i])
  {
    if k in acc {
      var i :| 0 <= i < |rows| && k in RowMaps(rows)[i];
      assert k in RowFields(rows[i]);
    } else {
      forall i | 0 <= i < |rows| ensures k !in RowFields(rows[i]) {
        assert RowMaps(rows)[i] == RowFields(rows[i]);
      }
    }
  }

  /** The parquet files of the product page's sub-tables, all named `name`. */
  function SectionDocs(name: string, sections: seq<Table>): (docs: seq<(Key, Doc)>)
    requires |sections| <= |SectionDirs|
    ensures |docs| == |sections|
    ensures forall i :: 0 <= i < |docs| ==> docs[i] == (Key(SectionDirs[i], name), Parquet(sections[i]))
    ensures OutsideProducts(docs)
  {
    seq(|sections|, i requires 0 <= i < |sections| => (Key(SectionDirs[i], name), Parquet(sections[i])))
  }

  /** The record `crawl_prod_info` returns, from the company summary and the merged product rows. */
  function JoinCompany(status: string, address: string, prod: Fields): Fields
  {
    map[StatusField := status, AddressField := address] + prod
  }

  /** The checks `crawl_prod_info` makes on the merged rows, restated over the rows themselves. */
  lemma MergedFieldChecks(prod: Fields, rows: seq<Row>)
    requires MergedFrom(prod, rows)
    ensures {StatusField, AddressField} !! prod.Keys <==> NoSummaryFields(rows)
    ensures ItemNoField in prod <==> ReportsItemNo(rows)
  {
    MergedField(prod, rows, StatusField);
    MergedField(prod, rows, AddressField);
    MergedField(prod, rows, ItemNoField);
  }

  /** Joining a collision-free merge with the company summary keeps every field of both. */
  lemma JoinedRecord(status: string, address: string, rows: seq<Row>, prod: Fields)
    requires MergeRows(rows) == Success(prod)
    requires {StatusField, AddressField} !! prod.Keys
    ensures JoinedFields(status, address, rows, JoinCompany(status, address, prod))
  {
    var fields := JoinCompany(status, address, prod);
    forall i, k | 0 <= i < |rows| && k in RowFields(rows[i]) ensures fields[k] == RowFields(rows[i])[k] {
      assert RowMaps(rows)[i] == RowFields(rows[i]);
    }
  }

  /**
    `crawl_prod_info` on a parsed page: the company summary (status from the
    link's `onclick`, address from the second cell) joined with the merged
    product rows, the two joined only when they share no field, and one
    parquet file per sub-table named after the item number the page reports.
   */
  function CrawlProdInfo(roman: string, page: ProdPage): (r: Result<ProdInfo, Error>)
    ensures r.Success? <==> ProdPageReadable(page)
    ensures r.Success? ==>
      ProdRecord(roman, ParseOnclick(page.companyLink.value).value, page.companyAddress.value, page.rows, page.sections, r.value)
  {
    match CompanySummary(page)
    case Failure(e) => Failure(e)
    case Success(summary) =>
      if page.mbTables != 2 then Failure(TableCount("mb-table", page.mbTables))
      else ProductTables(roman, summary.0, summary.1, page.rows, page.sections)
  }

  /** The company status and address read from the first `mb-table`, before the table count is asserted. */
  function CompanySummary(page: ProdPage): (r: Result<(string, string), Error>)
    ensures r.Success? <==>
      && page.mbTables != 0
      && page.companyLink.Some? && ParseOnclick(page.companyLink.value).Success?
      && page.companyAddress.Some?
    ensures r.Success? ==> r.value == (ParseOnclick(page.companyLink.value).value, page.companyAddress.value)
  {
    if page.mbTables == 0 then Failure(TableCount("mb-table", 0))
    else if page.companyLink.None? then Failure(MissingCompanyLink)
    else match ParseOnclick(page.companyLink.value)
      case Failure(e) => Failure(e)
      case Success(status) =>
        if page.companyAddress.None? then Failure(MissingCompanyAddress)
        else Success((status, page.companyAddress.value))
  }

  /** The part of `crawl_prod_info` after the company summary is read. */
  function ProductTables(roman: string, status: string, address: string, rows: seq<Row>, sections: seq<Table>): (r: Result<ProdInfo, Error>)
    ensures r.Success? <==> TablesReadable(rows, sections)
    ensures r.Success? ==> ProdRecord(roman, status, address, rows, sections, r.value)
  {
    match MergeRows(rows)
    case Failure(e) => Failure(e)
    case Success(prod) => JoinProduct(roman, status, address, rows, prod, sections)
  }

  /** The part of `crawl_prod_info` after the product rows are merged into `prod`. */
  function JoinProduct(roman: string, status: string, address: string, rows: seq<Row>, prod: Fields, sections: seq<Table>): (r: Result<ProdInfo, Error>)
    requires MergeRows(rows) == Success(prod)
    ensures r.Success? <==> |sections| in {2, 3} && NoSummaryFields(rows) && ReportsItemNo(rows)
    ensures r.Success? ==> ProdRecord(roman, status, address, rows, sections, r.value)
  {
    MergedFieldChecks(prod, rows);
    if |sections| !in {2, 3} then Failure(TableCount("col table-sm", |sections|))
    else if !({StatusField, AddressField} !! prod.Keys) then Failure(KeyCollision)
    else
      var fields := JoinCompany(status, address, prod);
      FieldNamesDistinct();
      if ItemNoField !in fields then Failure(MissingField(ItemNoField))
      else
        JoinedRecord(status, address, rows, prod);
        var itemNo := fields[ItemNoField];
        Success(ProdInfo(fields, itemNo, SectionDocs(roman + "_" + itemNo, sections)))
  }

  /** The parsed company page. */
  datatype CompPage = CompPage(
    smTables: nat,          // number of `mb-table table-sm` tables
    rows: seq<Row>,         // rows of the company table
    sections: seq<Table>)   // the `responsive-table` blocks

  /** The company sub-tables by role; the HACCP block is present on some pages only. */
  datatype CompanyTables = CompanyTables(haccp: Option<Table>, licences: Table, enforcement: Table, products: Table)

  /**
    Three blocks are licences, enforcement and products; a fourth, leading
    block is the HACCP certification. Any other count leaves the containers
    unbound and raises.
   */
  function DispatchCompanyTables(sections: seq<Table>): (r: Result<CompanyTables, Error>)
    ensures r.Success? <==> |sections| == 3 || |sections| == 4
    ensures r.Success? ==> [r.value.licences, r.value.enforcement, r.value.products] == sections[|sections| - 3..]
    ensures r.Success? ==> (r.value.haccp.Some? <==> |sections| == 4)
    ensures r.Success? && r.value.haccp.Some? ==> r.value.haccp.value == sections[0]
  {
    if |sections| == 3 then Success(CompanyTables(None, sections[0], sections[1], sections[2]))
    else if |sections| == 4 then Success(CompanyTables(Some(sections[0]), sections[1], sections[2], sections[3]))
    else Failure(TableCount("responsive-table", |sections|))
  }

  /** What `parse_comp_info` yields: the company record, its licence number and the files it writes. */
  datatype CompInfo = CompInfo(fields: Fields, license: string, docs: seq<(Key, Doc)>)

  /** Everything `parse_comp_info` checks, stated over the page. */
  ghost predicate CompPageReadable(page: CompPage)
  {
    && page.smTables == 1
    && RowsDisjoint(page.rows)
    && (|page.sections| == 3 || |page.sections| == 4)
    && (exists i :: 0 <= i < |page.rows| && LicenseField in RowFields(page.rows[i]))
  }

  /** A record built over the merge of `rows` keeps every row's value, except under the key it overwrites. */
  lemma CompanyFieldsFacts(merged: Fields, rows: seq<Row>, fields: Fields, overwritten: string)
    requires MergedFrom(merged, rows)
    requires forall k :: k in merged && k != overwritten ==> k in fields && fields[k] == merged[k]
    ensures LicenseField in merged <==> exists i :: 0 <= i < |rows| && LicenseField in RowFields(rows[i])
    ensures forall i, k :: 0 <= i < |rows| && k in RowFields(rows[i]) && k != overwritten ==>
      fields[k] == RowFields(rows[i])[k]
  {
    MergedField(merged, rows, LicenseField);
    forall i, k | 0 <= i < |rows| && k in RowFields(rows[i]) && k != overwritten
      ensures fields[k] == RowFields(rows[i])[k]
    {
      assert RowMaps(rows)[i] == RowFields(rows[i]);
    }
  }

  /** The files `parse_comp_info` writes, all named `name`. */
  function CompanyDocs(name: string, fields: Fields, t: CompanyTables): seq<(Key, Doc)>
  {
    [(Key(Company, name), Json(fields)),
     (Key(AuthorizeCompany, name), Parquet(t.licences)),
     (Key(EnforceCompany, name), Parquet(t.enforcement)),
     (Key(ProductCompany, name), Parquet(t.products))]
  }

  /** The part of `parse_comp_info` after the company rows are merged into `merged`. */
  function CompanyRecord(roman: string, refer: string, merged: Fields, sections: seq<Table>): (r: Result<CompInfo, Error>)
    ensures r.Success? <==> (|sections| == 3 || |sections| == 4) && LicenseField in merged
    ensures r.Success? ==> OutsideProducts(r.value.docs)
    ensures r.Success? ==>
      && r.value.fields.Keys == merged.Keys + {ReferField}
      && r.value.fields[ReferField] == refer
      && (forall k :: k in merged && k != ReferField ==> r.value.fields[k] == merged[k])
      && r.value.license == merged[LicenseField]
    ensures r.Success? ==>
      var name := roman + "_" + refer + "_" + r.value.license;
      var n := |sections|;
      r.value.docs == [(Key(Company, name), Json(r.value.fields)),
                       (Key(AuthorizeCompany, name), Parquet(sections[n - 3])),
                       (Key(EnforceCompany, name), Parquet(sections[n - 2])),
                       (Key(ProductCompany, name), Parquet(sections[n - 1]))]
  {
    match DispatchCompanyTables(sections)
    case Failure(e) => Failure(e)
    case Success(t) =>
      if LicenseField !in merged then Failure(MissingField(LicenseField))
      else
        var license := merged[LicenseField];
        var fields := merged[ReferField := refer];
        Success(CompInfo(fields, license, CompanyDocs(roman + "_" + refer + "_" + license, fields, t)))
  }

  /**
    `parse_comp_info` on a parsed page for the item `refer`: the merged
    company rows tagged with the referring item, written as JSON beside the
    licence, enforcement and product tables, all named after the query, the
    referring item and the company's licence number. The HACCP block is
    parsed but never written.
   */
  function ParseCompInfo(roman: string, refer: string, page: CompPage): (r: Result<CompInfo, Error>)
    ensures r.Success? <==> CompPageReadable(page)
    ensures r.Success? ==> OutsideProducts(r.value.docs)
    ensures r.Success? ==>
      && r.value.fields.Keys == MergeRows(page.rows).value.Keys + {ReferField}
      && r.value.fields[ReferField] == refer
      && (forall i, k :: 0 <= i < |page.rows| && k in RowFields(page.rows[i]) && k != ReferField ==>
            r.value.fields[k] == RowFields(page.rows[i])[k])
      && (forall i :: 0 <= i < |page.rows| && LicenseField in RowFields(page.rows[i]) ==>
            r.value.license == RowFields(page.rows[i])[LicenseField])
    ensures r.Success? ==>
      var name := roman + "_" + refer + "_" + r.value.license;
      var n := |page.sections|;
      r.value.docs == [(Key(Company, name), Json(r.value.fields)),
                       (Key(AuthorizeCompany, name), Parquet(page.sections[n - 3])),
                       (Key(EnforceCompany, name), Parquet(page.sections[n - 2])),
                       (Key(ProductCompany, name), Parquet(page.sections[n - 1]))]
  {
    if page.smTables != 1 then Failure(TableCount("mb-table table-sm", page.smTables))
    else match MergeRows(page.rows)
      case Failure(e) => Failure(e)
      case Success(merged) =>
        var r := CompanyRecord(roman, refer, merged, page.sections);
        if r.Success? then
          CompanyFieldsFacts(merged, page.rows, r.value.fields, ReferField);
          r
        else
          MergedField(merged, page.rows, LicenseField);
          r
  }
}
