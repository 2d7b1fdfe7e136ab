/** The JDK services the basic tokenizer calls but whose tables are not part of this
    model: `Character.getType`, `String.toLowerCase` and `Normalizer.normalize(_, NFD)`.
    They are passed around as a value of type `Jdk`, so every property proved holds
    whatever the Unicode tables say. */
module Unicode {
  import opened Chars

  /** The general categories that `Character.getType` reports and the tokenizer
      distinguishes; `OtherCategory` stands for all the rest (letters, digits,
      symbols, other separators and marks). */
  datatype Category =
    | Control | Format | PrivateUse | Surrogate | Unassigned
    | ConnectorPunctuation | DashPunctuation | EndPunctuation | FinalQuotePunctuation
    | InitialQuotePunctuation | OtherPunctuation | StartPunctuation
    | SpaceSeparator | NonSpacingMark | OtherCategory

  datatype Jdk = Jdk(
    getType: CodePoint -> Category,  // Character.getType(int)
    toLowerCase: Text -> Text,       // String.toLowerCase() in the default locale
    nfd: Text -> Text                // Normalizer.normalize(s, Normalizer.Form.NFD)
  )
}
