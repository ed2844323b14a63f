/**
 * The parsed documentation page, as the scrapers see it once the HTML parser has run:
 * tables of rows of cells, each cell with its text and the texts of its links.
 */
module Html {
  import opened Wrappers
  import Text

  /** The root of the Service Authorization Reference pages. */
  const DocsBaseUrl: string := "https://docs.aws.amazon.com/service-authorization/latest/reference"

  /** The url of one page of the reference. */
  function DocUrl(page: string): string {
    DocsBaseUrl + "/" + page
  }

  /** The page `<prefix><name>.html`, the shape both scrapers guess page names in. */
  function PatternUrl(prefix: string, name: string): string {
    DocUrl(prefix + name + ".html")
  }

  /** One `td` or `th` element: its text content and the text of every `a` element in it. */
  datatype Cell = Cell(text: string, links: seq<string>)

  /** The `td` and `th` cells of one `tr` element, in document order. */
  type Row = seq<Cell>

  /** A `table` element: the texts of all its `th` elements, and all its `tr` rows, header row first. */
  datatype Table = Table(headerTexts: seq<string>, rows: seq<Row>)

  /**
   * A documentation page: the service name the page title yields (present when the
   * `h1.topictitle` heading exists and names the service) and the page's tables.
   */
  datatype Page = Page(title: Option<string>, tables: seq<Table>)

  /** The answer to a GET request that did not raise. */
  datatype Response = Response(status: int, page: Page)

  /** The stripped text of every header cell of the table, in order. */
  function Headers(t: Table): (r: seq<string>)
    ensures |r| == |t.headerTexts|
    ensures forall k :: 0 <= k < |r| ==> r[k] == Text.Strip(t.headerTexts[k])
  {
    seq(|t.headerTexts|, k requires 0 <= k < |t.headerTexts| => Text.Strip(t.headerTexts[k]))
  }

  /** Every row but the first (the header row); none when the table has no row. */
  function BodyRows(t: Table): (r: seq<Row>)
    ensures |r| == if t.rows == [] then 0 else |t.rows| - 1
    ensures forall k :: 0 <= k < |r| ==> r[k] == t.rows[k + 1]
  {
    if t.rows == [] then [] else t.rows[1..]
  }
}
