/**
 * The shared button: optional props with defaults, and the class string
 * composed from a fixed base class, the variant's and the size's classes,
 * two flag classes and the caller's extra classes, with empty entries
 * dropped and the rest joined by single spaces.
 */
module Button {
  import opened Text

  datatype Variant = Primary | Secondary | Ghost | Outline | Link
  datatype Size = Lg | Md | Sm | Xs
  datatype ButtonType = ButtonButton | SubmitButton | ResetButton

  datatype ButtonProps = ButtonProps(
    variant: Variant, size: Size, disabled: bool, buttonType: ButtonType,
    className: string, fullWidth: bool)

  /** The props of a button given none of the optional ones. */
  const DefaultProps := ButtonProps(Primary, Md, false, ButtonButton, "", false)

  const BaseClass := "btn"

  function VariantClass(v: Variant): (c: string)
    ensures |c| > 4 && c[..4] == "btn-"
  {
    match v
    case Primary => "btn-primary"
    case Secondary => "btn-secondary"
    case Ghost => "btn-ghost"
    case Outline => "btn-outline"
    case Link => "btn-link"
  }

  /** Every variant has its own class. */
  lemma VariantClassInjective(a: Variant, b: Variant)
    ensures VariantClass(a) == VariantClass(b) <==> a == b
  {
    if a != b {
      // Each class differs from the others in its fifth character or its length.
      assert VariantClass(a)[4] != VariantClass(b)[4] || |VariantClass(a)| != |VariantClass(b)|;
    }
  }

  function SizeClass(s: Size): (c: string)
    ensures c == "" <==> s == Md
  {
    match s
    case Lg => "btn-lg"
    case Md => ""
    case Sm => "btn-sm"
    case Xs => "btn-xs"
  }

  /** `filter(Boolean)`: the non-empty entries, in order. */
  function DropEmpty(parts: seq<string>): seq<string> {
    if parts == [] then [] else DropEmpty(parts[..|parts| - 1]) + Keep(parts[|parts| - 1])
  }

  /** The entries of the class list before empty ones are dropped. */
  function Entries(p: ButtonProps): seq<string> {
    [BaseClass, VariantClass(p.variant), SizeClass(p.size),
     if p.fullWidth then "btn-block" else "",
     if p.disabled then "btn-disabled" else "",
     p.className]
  }

  /** The class tokens the button carries, in order. */
  function Tokens(p: ButtonProps): seq<string> {
    DropEmpty(Entries(p))
  }

  /** `combinedClasses`. */
  function Classes(p: ButtonProps): string {
    Join(Tokens(p), ' ')
  }

  /** What the element is rendered with. */
  datatype ButtonElement = ButtonElement(buttonType: ButtonType, disabled: bool, className: string)

  function Render(p: ButtonProps): (b: ButtonElement)
    ensures b.disabled == p.disabled && b.buttonType == p.buttonType
    ensures |b.className| >= 3 && b.className[..3] == BaseClass
  {
    TokensShape(p);
    JoinStartsWithFirst(Tokens(p), ' ');
    ButtonElement(p.buttonType, p.disabled, Classes(p))
  }

  /**
   * The tokens are "btn", the variant's class, the size's class unless the
   * size is md, the two flag classes when set and the extra classes when
   * given, in that order.
   */
  lemma TokensShape(p: ButtonProps)
    ensures Tokens(p) ==
      [BaseClass, VariantClass(p.variant)]
      + (if p.size != Md then [SizeClass(p.size)] else [])
      + (if p.fullWidth then ["btn-block"] else [])
      + (if p.disabled then ["btn-disabled"] else [])
      + (if p.className != "" then [p.className] else [])
  {
    var e := Entries(p);
    DropEmptySix(e[0], e[1], e[2], e[3], e[4], e[5]);
    assert e == [e[0], e[1], e[2], e[3], e[4], e[5]];
    assert Keep(e[0]) + Keep(e[1]) == [BaseClass, VariantClass(p.variant)];
    assert Keep(e[2]) == if p.size != Md then [SizeClass(p.size)] else [];
    assert Keep(e[3]) == if p.fullWidth then ["btn-block"] else [];
    assert Keep(e[4]) == if p.disabled then ["btn-disabled"] else [];
    assert Keep(e[5]) == if p.className != "" then [p.className] else [];
  }

  /** An entry as the tokens it contributes. */
  function Keep(x: string): seq<string> {
    if x != "" then [x] else []
  }

  lemma DropEmptySix(a: string, b: string, c: string, d: string, e: string, f: string)
    ensures DropEmpty([a, b, c, d, e, f]) == Keep(a) + Keep(b) + Keep(c) + Keep(d) + Keep(e) + Keep(f)
  {
    assert [a, b, c, d, e, f][..5] == [a, b, c, d, e];
    assert [a, b, c, d, e][..4] == [a, b, c, d];
    assert [a, b, c, d][..3] == [a, b, c];
    assert [a, b, c][..2] == [a, b];
    assert [a, b][..1] == [a];
    assert DropEmpty([a]) == Keep(a) by {
      assert [a][..0] == [];
    }
    assert DropEmpty([a, b]) == DropEmpty([a]) + Keep(b);
    assert DropEmpty([a, b, c]) == DropEmpty([a, b]) + Keep(c);
    assert DropEmpty([a, b, c, d]) == DropEmpty([a, b, c]) + Keep(d);
    assert DropEmpty([a, b, c, d, e]) == DropEmpty([a, b, c, d]) + Keep(e);
  }

  /** The class string always starts with the base class, as its own token. */
  lemma ClassesStartWithBase(p: ButtonProps)
    ensures |Classes(p)| > 3
    ensures Classes(p)[..3] == BaseClass
    ensures Classes(p)[3] == ' '
  {
    TokensShape(p);
    JoinStartsWithFirst(Tokens(p), ' ');
  }

  /** "btn-block" is a token when full width is asked for, and otherwise only if the caller passed it. */
  lemma BlockIffFullWidth(p: ButtonProps)
    ensures p.fullWidth ==> "btn-block" in Tokens(p)
    ensures "btn-block" in Tokens(p) ==> p.fullWidth || p.className == "btn-block"
    ensures p.disabled ==> "btn-disabled" in Tokens(p)
    ensures "btn-disabled" in Tokens(p) ==> p.disabled || p.className == "btn-disabled"
  {
    TokensShape(p);
  }

  /** The md size adds no token: with no flags and no extra classes the button has exactly two. */
  lemma MediumAddsNoToken(p: ButtonProps)
    requires p.size == Md
    ensures |Tokens(p)| == 2 + (if p.fullWidth then 1 else 0) + (if p.disabled then 1 else 0) + (if p.className != "" then 1 else 0)
    ensures |Tokens(p.(size := Lg))| == |Tokens(p)| + 1
  {
    TokensShape(p);
    TokensShape(p.(size := Lg));
  }

  lemma DefaultClasses()
    ensures Classes(DefaultProps) == "btn btn-primary"
    ensures !Render(DefaultProps).disabled && Render(DefaultProps).buttonType == ButtonButton
  {
    TokensShape(DefaultProps);
  }
}
