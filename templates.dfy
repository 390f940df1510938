/** Seed content for new files, chosen by the lower-cased extension of the file name. */
module Templates {
  import opened JsStrings

  /** `name.split('.').pop()?.toLowerCase() || ''`: the lower-cased text after the last dot, or the whole lower-cased
      name when it has no dot. */
  function Extension(name: string): string {
    Lower(Last(Split(name, '.')))
  }

  /** The extension is the lower-cased text after the last dot: `name` is some prefix, a dot and a dot-free rest, and
      the extension is that rest lower-cased; a name without a dot is its own extension. */
  lemma ExtensionAfterLastDot(name: string)
    ensures '.' !in name ==> Extension(name) == Lower(name)
    ensures '.' in name ==> exists pre, post :: name == pre + "." + post && '.' !in post && Extension(name) == Lower(post)
  {
    SplitLastRebuilds(name, '.');
    var (pre, post) := SplitLast(name, '.');
    if '.' in name {
      assert name == pre + "." + post;
    }
  }

  /** `TEMPLATES[ext] || ''`: the built-in template for the extension, or empty content for any other extension. */
  function TemplateContent(ext: string): string {
    if ext == "html" then
      "<!DOCTYPE html>\n<html lang=\"en\">\n<head>\n    <meta charset=\"UTF-8\">\n    <meta name=\"viewport\" content=\"width=device-width, initial-scale=1.0\">\n    <title>New Project</title>\n    <style>\n      body { font-family: sans-serif; padding: 20px; background: #f0f0f0; }\n    </style>\n</head>\n<body>\n    <h1>Hello World</h1>\n    <script>\n      console.log(\"App started\");\n    </script>\n</body>\n</html>"
    else if ext == "css" then
      "body {\n    margin: 0;\n    padding: 0;\n    font-family: system-ui, -apple-system, sans-serif;\n}"
    else if ext == "js" then
      "console.log('Hello from JavaScript!');"
    else if ext == "ts" then
      "const greeting: string = 'Hello TypeScript';\nconsole.log(greeting);"
    else if ext == "json" then
      "{\n  \"name\": \"project\",\n  \"version\": \"1.0.0\"\n}"
    else if ext == "jsx" then
      "import React from 'react';\n\nexport default function App() {\n  return <h1>Hello React</h1>;\n}"
    else if ext == "tsx" then
      "import React from 'react';\n\nexport default function App() {\n  return <h1>Hello React TS</h1>;\n}"
    else if ext == "py" then
      "# Python Script\ndef main():\n    print(\"Hello from Python!\")\n\nif __name__ == \"__main__\":\n    main()"
    else if ext == "go" then
      "package main\n\nimport \"fmt\"\n\nfunc main() {\n    fmt.Println(\"Hello from Go!\")\n}"
    else if ext == "rs" then
      "fn main() {\n    println!(\"Hello from Rust!\");\n}"
    else if ext == "java" then
      "public class Main {\n    public static void main(String[] args) {\n        System.out.println(\"Hello from Java!\");\n    }\n}"
    else if ext == "cpp" then
      "#include <iostream>\n\nint main() {\n    std::cout << \"Hello from C++!\" << std::endl;\n    return 0;\n}"
    else if ext == "c" then
      "#include <stdio.h>\n\nint main() {\n    printf(\"Hello from C!\\n\");\n    return 0;\n}"
    else if ext == "php" then
      "<?php\n\necho \"Hello from PHP!\";\n?>"
    else if ext == "dart" then
      "void main() {\n  print('Hello from Dart!');\n}"
    else if ext == "lua" then
      "print(\"Hello from Lua!\")"
    else ""
  }

  /** The extensions that have a template. */
  predicate HasTemplate(ext: string) {
    || ext == "html" || ext == "css" || ext == "js" || ext == "ts" || ext == "json" || ext == "jsx" || ext == "tsx" || ext == "py"
    || ext == "go" || ext == "rs" || ext == "java" || ext == "cpp" || ext == "c" || ext == "php" || ext == "dart" || ext == "lua"
  }

  /** An extension without a template gets empty content. */
  lemma TemplateLookup(ext: string)
    ensures !HasTemplate(ext) ==> TemplateContent(ext) == ""
  {
  }

  /** `ext || 'text'`: the language tag of a new file. */
  function LanguageOf(ext: string): (r: string)
    ensures r != "" && (ext != "" ==> r == ext)
  {
    if ext == "" then "text" else ext
  }
}
