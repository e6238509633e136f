/**
 * The parts of the host generator's object model that the plugin reads or
 * edits: XML nodes and elements, Java class, field and interface
 * declarations, and the table and column metadata.
 */
module Dom {
  import opened Wrappers

  /** An XML attribute. */
  datatype Attribute = Attribute(name: string, value: string)

  /**
   * A child of an XML element: a TextElement (also used for comments and
   * blank lines) or a nested XmlElement. No other kind of child exists.
   */
  datatype Node = Text(content: string) | Element(name: string, attributes: seq<Attribute>, elements: seq<Node>)

  /** IntrospectedColumn: the column's actual name, its remark (Java null when absent) and its nullability. */
  datatype Column = Column(actualName: string, remarks: Option<string>, nullable: bool)

  /**
   * IntrospectedTable: the text of its fully qualified name, the alias of
   * its table configuration, and its columns under the names its column
   * lookup resolves.
   */
  datatype Table = Table(qualifiedName: string, alias: Option<string>, columns: map<string, Column>)

  /** A remark is used only when it is present and longer than one character. */
  predicate HasRemark(remarks: Option<string>): (r: bool)
    ensures remarks.None? || |remarks.value| <= 1 ==> !r
    ensures r ==> remarks.Some? && |remarks.value| >= 2
  {
    remarks.Some? && |remarks.value| > 1
  }

  /** An XmlElement whose attribute and child lists are edited in place. */
  class XmlElement {
    var name: string
    var attributes: seq<Attribute>
    var elements: seq<Node>

    constructor (name: string, attributes: seq<Attribute>, elements: seq<Node>)
      ensures this.name == name && this.attributes == attributes && this.elements == elements
    {
      this.name := name;
      this.attributes := attributes;
      this.elements := elements;
    }
  }

  /** A generated mapping document and its root element. */
  class Document {
    const rootElement: XmlElement

    constructor (rootElement: XmlElement)
      ensures this.rootElement == rootElement
    {
      this.rootElement := rootElement;
    }
  }

  /** A generated field: only its javadoc lines are edited. */
  class Field {
    var javaDocLines: seq<string>

    constructor (javaDocLines: seq<string>)
      ensures this.javaDocLines == javaDocLines
    {
      this.javaDocLines := javaDocLines;
    }
  }

  /** A generated model class: javadoc lines, annotations and the set of imported types. */
  class TopLevelClass {
    var javaDocLines: seq<string>
    var annotations: seq<string>
    var importedTypes: set<string>

    constructor (javaDocLines: seq<string>, annotations: seq<string>, importedTypes: set<string>)
      ensures this.javaDocLines == javaDocLines && this.annotations == annotations
      ensures this.importedTypes == importedTypes
    {
      this.javaDocLines := javaDocLines;
      this.annotations := annotations;
      this.importedTypes := importedTypes;
    }

    /** addImportedType: the type joins the imported set. */
    method AddImportedType(t: string)
      modifies this
      ensures importedTypes == old(importedTypes) + {t}
      ensures javaDocLines == old(javaDocLines) && annotations == old(annotations)
    {
      importedTypes := importedTypes + {t};
    }

    /** addAnnotation: the text is appended to the annotations. */
    method AddAnnotation(text: string)
      modifies this
      ensures annotations == old(annotations) + [text]
      ensures javaDocLines == old(javaDocLines) && importedTypes == old(importedTypes)
    {
      annotations := annotations + [text];
    }
  }

  /** A generated mapper interface: annotations and the set of imported types. */
  class Interface {
    var annotations: seq<string>
    var importedTypes: set<string>

    constructor (annotations: seq<string>, importedTypes: set<string>)
      ensures this.annotations == annotations && this.importedTypes == importedTypes
    {
      this.annotations := annotations;
      this.importedTypes := importedTypes;
    }

    /** addImportedType: the type joins the imported set. */
    method AddImportedType(t: string)
      modifies this
      ensures importedTypes == old(importedTypes) + {t}
      ensures annotations == old(annotations)
    {
      importedTypes := importedTypes + {t};
    }

    /** addAnnotation: the text is appended to the annotations. */
    method AddAnnotation(text: string)
      modifies this
      ensures annotations == old(annotations) + [text]
      ensures importedTypes == old(importedTypes)
    {
      annotations := annotations + [text];
    }
  }
}
