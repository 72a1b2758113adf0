/** The file classifier of gitlab_mr_analyzer.py: `detect_programming_language`
    and `categorize_file`, both functions of the path alone. */
module Classifier {
  import opened PyStrings
  import opened PosixPath

  /** The extension table of `detect_programming_language`. The source lists
      `.sql` and `.tfvars` twice with the same language; a dict keeps one entry. */
  const ExtensionToLanguage: map<string, string> := map[
    ".py" := "Python", ".js" := "JavaScript", ".jsx" := "JavaScript",
    ".ts" := "TypeScript", ".tsx" := "TypeScript", ".java" := "Java",
    ".c" := "C", ".cpp" := "C++", ".cs" := "C#", ".rb" := "Ruby", ".go" := "Go",
    ".php" := "PHP", ".swift" := "Swift", ".kt" := "Kotlin", ".rs" := "Rust",
    ".scala" := "Scala", ".html" := "HTML", ".css" := "CSS", ".sql" := "SQL",
    ".sh" := "Shell", ".ps1" := "PowerShell", ".tf" := "Terraform",
    ".tfvars" := "Terraform", ".tfstate" := "Terraform",
    ".tfstate.backup" := "Terraform", ".dockerfile" := "Docker",
    "Dockerfile" := "Docker"
  ]

  const Unknown := "Unknown"
  const NotApplicable := "N/A"

  /** `detect_programming_language(path)`: the table entry of the lower-cased
      extension, `Unknown` when there is none. */
  function DetectLanguage(path: string): (language: string) {
    var key := Lower(Extension(path));
    if key in ExtensionToLanguage then ExtensionToLanguage[key] else Unknown
  }

  /** The detected language is always a language of the table or `Unknown`,
      and it is `Unknown` exactly when the lower-cased extension is no key. */
  lemma DetectLanguageRange(path: string)
    ensures DetectLanguage(path) in ExtensionToLanguage.Values || DetectLanguage(path) == Unknown
    ensures DetectLanguage(path) == Unknown <==> Lower(Extension(path)) !in ExtensionToLanguage
  {
    var key := Lower(Extension(path));
    if key in ExtensionToLanguage {
      assert ExtensionToLanguage[key] in ExtensionToLanguage.Values;
    }
  }

  datatype Category = Documentation | Configuration | Code

  datatype Classification = Classification(category: Category, language: string)

  const DocumentationExtensions: seq<string> := [".md", ".txt", ".rst", ".adoc"]
  const ConfigurationExtensions: seq<string> := [".yml", ".yaml", ".json", ".ini", ".cfg", ".conf"]

  /** The documentation test: the extension as written (case-sensitive), or
      `docs` anywhere in the lower-cased path. */
  predicate IsDocumentation(path: string) {
    Extension(path) in DocumentationExtensions || Contains(Lower(path), "docs")
  }

  /** The configuration test: the extension as written, or `config` anywhere
      in the lower-cased path. */
  predicate IsConfiguration(path: string) {
    Extension(path) in ConfigurationExtensions || Contains(Lower(path), "config")
  }

  /** `categorize_file(path)`: documentation first, then configuration, then
      code with the detected language. */
  function CategorizeFile(path: string): (r: Classification) {
    if IsDocumentation(path) then Classification(Documentation, NotApplicable)
    else if IsConfiguration(path) then Classification(Configuration, NotApplicable)
    else Classification(Code, DetectLanguage(path))
  }

  /** Only code carries a language: `N/A` marks exactly the documentation and
      configuration files, and a code file's language is one of the table or
      `Unknown`. */
  lemma CategorizeFileLanguage(path: string)
    ensures CategorizeFile(path).category != Code <==> CategorizeFile(path).language == NotApplicable
    ensures CategorizeFile(path).category == Code ==>
              CategorizeFile(path).language in ExtensionToLanguage.Values || CategorizeFile(path).language == Unknown
  {
    DetectLanguageRange(path);
    LanguagesAreNamed();
  }

  /** No language of the table is `N/A`, so `N/A` marks exactly the non-code files. */
  lemma LanguagesAreNamed()
    ensures NotApplicable !in ExtensionToLanguage.Values
    ensures Unknown !in ExtensionToLanguage.Values
  {
  }

  /** The precedence of `categorize_file`: each category holds exactly when its
      own test passes and no earlier test did. */
  lemma CategorizeFilePrecedence(path: string)
    ensures CategorizeFile(path).category == Documentation <==> IsDocumentation(path)
    ensures CategorizeFile(path).category == Configuration <==>
              !IsDocumentation(path) && IsConfiguration(path)
    ensures CategorizeFile(path).category == Code <==>
              !IsDocumentation(path) && !IsConfiguration(path)
    ensures CategorizeFile(path).category == Code ==>
              CategorizeFile(path).language == DetectLanguage(path)
  {
  }

  /** Language detection ignores letter case: paths equal up to case get the same language. */
  lemma DetectLanguageIgnoresCase(p: string, q: string)
    requires Lower(p) == Lower(q)
    ensures DetectLanguage(p) == DetectLanguage(q)
  {
    ExtensionLower(p);
    ExtensionLower(q);
  }

  /** `Foo.PY` and `foo.py` are both Python. */
  lemma UpperCaseExtension(p: string, q: string)
    requires p == "Foo.PY" && q == "foo.py"
    ensures DetectLanguage(p) == DetectLanguage(q) == "Python"
  {
    assert forall i | 0 <= i < 6 :: Lower(p)[i] == q[i];
    DetectLanguageIgnoresCase(p, q);
    PythonFile(q);
  }

  lemma PythonFile(q: string)
    requires q == "foo.py"
    ensures DetectLanguage(q) == "Python"
  {
    RFindAt(q, '.', 3);
    RFindAbsent(q, '/');
    assert q[0] != '.';
    PythonKey(Extension(q));
  }

  lemma PythonKey(e: string)
    requires e == ".py"
    ensures Lower(e) == e && ExtensionToLanguage[e] == "Python"
  {
    assert forall i | 0 <= i < |e| :: !('A' <= e[i] <= 'Z');
    LowerUnchanged(e);
    PythonEntry();
  }

  lemma PythonEntry()
    ensures ".py" in ExtensionToLanguage && ExtensionToLanguage[".py"] == "Python"
  {
  }

  /** The table keys `Dockerfile` and `.tfstate.backup` are never looked up:
      no path is detected as Docker except through `.dockerfile`, and a
      `.backup` file is not Terraform. */
  lemma UnreachableKeys(path: string)
    ensures Lower(Extension(path)) != "Dockerfile"
    ensures Lower(Extension(path)) != ".tfstate.backup"
    ensures DetectLanguage(path) == "Docker" ==> Lower(Extension(path)) == ".dockerfile"
  {
    ExtensionShape(path);
  }

  /** Any file name that ends in a documentation extension, and has a character
      other than '/' or '.' just before it, is documentation whatever else its
      path says. */
  lemma DocumentationExtensionWins(stem: string, ext: string)
    requires ext in DocumentationExtensions
    requires |stem| > 0 && stem[|stem| - 1] != '/' && stem[|stem| - 1] != '.'
    ensures CategorizeFile(stem + ext) == Classification(Documentation, NotApplicable)
  {
    var p := stem + ext;
    assert ext[0] == '.' && forall i | 1 <= i < |ext| :: ext[i] != '.' && ext[i] != '/';
    assert p[|stem|] == '.';
    assert forall i | |stem| < i < |p| :: p[i] == ext[i - |stem|];
    assert RFind(p, '.') == |stem|;
    assert p[|stem| - 1] != '.';
    assert RFind(p, '/') < |stem| - 1;
    assert p[|stem|..] == ext;
    assert Extension(p) == ext;
  }

  /** `src/config.py` is configuration, not Python code. */
  lemma ConfigModuleIsConfiguration(p: string)
    requires p == "src/config.py"
    ensures CategorizeFile(p) == Classification(Configuration, NotApplicable)
  {
    ConfigModuleNotDocumentation(p);
    ConfigModuleHasConfig(p);
  }

  lemma ConfigModuleNotDocumentation(p: string)
    requires p == "src/config.py"
    ensures !IsDocumentation(p)
  {
    ConfigModuleExtension(p);
    NotDocumentation(p, 'd');
  }

  lemma ConfigModuleHasConfig(p: string)
    requires p == "src/config.py"
    ensures IsConfiguration(p)
  {
    assert p[4..10] == "config";
    LowerContains(p, "config", 4);
  }

  lemma ConfigModuleExtension(p: string)
    requires p == "src/config.py"
    ensures Extension(p) == ".py"
  {
    ExtensionFrom(p, 10, 4);
    assert p[10..] == ".py";
  }

  /** A path whose extension is not a documentation one, and that lacks a
      letter of `docs` in either case, is not documentation. */
  lemma NotDocumentation(p: string, c: char)
    requires Extension(p) !in DocumentationExtensions
    requires c in "docs" && c !in p && (c as int - 32) as char !in p
    ensures !IsDocumentation(p)
  {
    LowerNotContains(p, "docs", c);
  }

  /** A path whose extension is not a configuration one, and that lacks a
      letter of `config` in either case, is not configuration. */
  lemma NotConfiguration(p: string, c: char)
    requires Extension(p) !in ConfigurationExtensions
    requires c in "config" && c !in p && (c as int - 32) as char !in p
    ensures !IsConfiguration(p)
  {
    LowerNotContains(p, "config", c);
  }

  /** Neither documentation nor configuration, and no table entry: code of
      unknown language. */
  lemma UnknownCode(p: string)
    requires !IsDocumentation(p) && !IsConfiguration(p)
    requires Lower(Extension(p)) !in ExtensionToLanguage
    ensures CategorizeFile(p) == Classification(Code, Unknown)
  {
  }

  /** The documentation extension test is case-sensitive: `README.MD` is code
      of unknown language. */
  lemma UpperCaseMarkdownIsCode(p: string)
    requires p == "README.MD"
    ensures CategorizeFile(p) == Classification(Code, Unknown)
  {
    ReadmeNeither(p);
    ReadmeNoKey(p);
    UnknownCode(p);
  }

  lemma ReadmeNoKey(p: string)
    requires p == "README.MD"
    ensures Lower(Extension(p)) !in ExtensionToLanguage
  {
    ReadmeExtension(p);
    MarkdownIsNoKey(Lower(Extension(p)));
  }

  lemma ReadmeNeither(p: string)
    requires p == "README.MD"
    ensures !IsDocumentation(p) && !IsConfiguration(p)
  {
    ReadmeExtension(p);
    NotDocumentation(p, 'o');
    NotConfiguration(p, 'c');
  }

  lemma ReadmeExtension(p: string)
    requires p == "README.MD"
    ensures Extension(p) == ".MD" && Lower(Extension(p)) == ".md"
  {
    ExtensionFrom(p, 6, 0);
    assert p[6..] == ".MD";
    assert forall i | 0 <= i < 3 :: Lower(".MD")[i] == ".md"[i];
  }

  lemma MarkdownIsNoKey(e: string)
    requires e == ".md"
    ensures e !in ExtensionToLanguage
  {
  }

  /** A file named only `.md` has no extension at all, so it is code too. */
  lemma HiddenMarkdownIsCode(p: string)
    requires p == "notes/.md"
    ensures CategorizeFile(p) == Classification(Code, Unknown)
  {
    HiddenMarkdownNeither(p);
    HiddenMarkdownNoKey(p);
    UnknownCode(p);
  }

  lemma HiddenMarkdownNoKey(p: string)
    requires p == "notes/.md"
    ensures Lower(Extension(p)) !in ExtensionToLanguage
  {
    HiddenMarkdownExtension(p);
    LowerUnchanged("");
    EmptyIsNoKey();
  }

  lemma EmptyIsNoKey()
    ensures "" !in ExtensionToLanguage
  {
  }

  lemma HiddenMarkdownNeither(p: string)
    requires p == "notes/.md"
    ensures !IsDocumentation(p) && !IsConfiguration(p)
  {
    HiddenMarkdownExtension(p);
    NotDocumentation(p, 'c');
    NotConfiguration(p, 'c');
  }

  lemma HiddenMarkdownExtension(p: string)
    requires p == "notes/.md"
    ensures Extension(p) == ""
  {
    RFindAt(p, '/', 5);
    RFindAt(p, '.', 6);
  }
}
