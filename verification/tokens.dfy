/** The token trees a procedural macro receives from the compiler. Both macro
    crates read their input as a sequence of these trees. */
module Tokens {

  /** The bracket kind of a group: `( )`, `{ }`, `[ ]`, or an invisible group. */
  datatype Delimiter = Parenthesis | Brace | Bracket | NoDelimiter

  /** The printed text of a literal token. The compiler only hands over lexically
      valid Rust literals, and a lone `"` is never one. */
  type LiteralText = s: string | s != "\""

  /** One token tree. A group carries its inner stream and the text the compiler
      prints for that stream (`group.stream().to_string()`); the printing itself
      belongs to the compiler and is not modelled. */
  datatype TokenTree =
    | Group(delimiter: Delimiter, stream: seq<TokenTree>, streamText: string)
    | Ident(name: string)
    | Punct(ch: char)
    | Literal(text: LiteralText)
}
